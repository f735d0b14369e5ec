/** Address ranges and the five-way comparison that steers every walk of the
    routing tree. */
module RouteRange {

  /** A closed range of 32-bit addresses. */
  datatype Range = Range(lo: nat, hi: nat)

  datatype Order = Precedes | Follows | Equals | Contains | Contained

  function Compare(a: Range, b: Range): Order {
    if a.hi < b.lo then Precedes
    else if a.lo > b.hi then Follows
    else if a.lo <= b.lo && a.hi >= b.hi then
      if a == b then Equals else Contains
    else Contained
  }

  predicate Covers(r: Range, a: nat) {
    r.lo <= a <= r.hi
  }

  predicate Inside(a: Range, b: Range) {
    b.lo <= a.lo && a.hi <= b.hi
  }

  predicate Disjoint(a: Range, b: Range) {
    a.hi < b.lo || b.hi < a.lo
  }

  /** Nested or disjoint: what contiguous masks guarantee. */
  predicate Laminar(a: Range, b: Range) {
    Disjoint(a, b) || Inside(a, b) || Inside(b, a)
  }

  /** On nonempty nested-or-disjoint ranges the comparison means what its names
      say; on ranges that merely cross it answers Contained. */
  lemma CompareMeaning(a: Range, b: Range)
    requires a.lo <= a.hi && b.lo <= b.hi
    ensures Compare(a, b) == Precedes <==> a.hi < b.lo
    ensures Compare(a, b) == Follows <==> b.hi < a.lo
    ensures Compare(a, b) == Equals <==> a == b
    ensures Compare(a, b) == Contains <==> Inside(b, a) && a != b
    ensures Compare(a, b) == Contained <==> (Inside(a, b) && a != b) || !Laminar(a, b)
  {}
}

/** One tree of the routing forest as a value: the node layout, the insertion,
    rotation, reinsertion and deletion steps, and the downward lookup walk. */
module RouteTree {
  import opened RouteRange

  /** What a node says about its range: type bits, gateway, reference count. */
  datatype Entry = Entry(range: Range, rtype: bv8, gate: nat, ref: int)

  const RV4: bv8 := 1
  const RIFC: bv8 := 2

  predicate IsIfc(e: Entry) {
    e.rtype & RIFC != 0
  }

  /** An IP interface; its number changes when the interface is rebound. */
  class Ipifc {
    var ifcid: nat
  }

  /** A routing node in memory. */
  class Route {
    var left: Route?
    var mid: Route?
    var right: Route?
    var v: Entry
    var depth: nat
    var ifc: Ipifc?
    var ifcid: nat

    constructor (e: Entry)
      ensures left == null && mid == null && right == null && v == e && depth == 0
      ensures ifc == null && ifcid == 0
    {
      left, mid, right, v, depth, ifc, ifcid := null, null, null, e, 0, null, 0;
    }
  }

  /** The tree hanging below a slot, each node with its identity. */
  datatype Tree =
    | Nil
    | Node(id: Route, left: Tree, mid: Tree, right: Tree, v: Entry, depth: nat)

  /** Every entry stored anywhere in the tree. */
  ghost function Elems(t: Tree): set<Entry> {
    match t
    case Nil => {}
    case Node(_, l, m, r, v, _) => Elems(l) + Elems(m) + Elems(r) + {v}
  }

  // ---------------------------------------------------------------- invariant

  datatype Relation = Nested | Beside | Unequal

  predicate Holds(k: Relation, x: Range, r: Range) {
    match k
    case Nested => Laminar(x, r)
    case Beside => Laminar(x, r) && !Inside(x, r)
    case Unequal => x != r
  }

  /** Every range of t stands in relation k to r. */
  ghost predicate All(t: Tree, k: Relation, r: Range) {
    t.Node? ==> Holds(k, t.v.range, r) && All(t.left, k, r) && All(t.mid, k, r) && All(t.right, k, r)
  }

  lemma {:induction false} AllMeaning(t: Tree, k: Relation, r: Range)
    ensures All(t, k, r) <==> forall e :: e in Elems(t) ==> Holds(k, e.range, r)
  {
    if t.Node? {
      AllMeaning(t.left, k, r);
      AllMeaning(t.mid, k, r);
      AllMeaning(t.right, k, r);
      if forall e :: e in Elems(t) ==> Holds(k, e.range, r) {
        assert t.v in Elems(t);
      }
    }
  }

  /** The shape invariant, for the part of the address space between lo and hi:
      left and right order disjoint ranges, mid holds ranges strictly inside the
      node. */
  ghost predicate Wf(t: Tree, lo: int, hi: int) {
    match t
    case Nil => true
    case Node(_, l, m, r, v, _) =>
      && lo <= v.range.lo <= v.range.hi <= hi
      && Wf(l, lo, v.range.lo - 1)
      && Wf(r, v.range.hi + 1, hi)
      && Wf(m, v.range.lo, v.range.hi) && All(m, Unequal, v.range)
  }

  lemma {:induction false} WfWiden(t: Tree, lo: int, hi: int, lo': int, hi': int)
    requires Wf(t, lo, hi) && lo' <= lo && hi <= hi'
    ensures Wf(t, lo', hi')
    decreases t
  {
    if t.Node? {
      WfWiden(t.left, lo, t.v.range.lo - 1, lo', t.v.range.lo - 1);
      WfWiden(t.right, t.v.range.hi + 1, hi, t.v.range.hi + 1, hi');
    }
  }

  lemma {:induction false} EntryBounds(t: Tree, lo: int, hi: int, e: Entry)
    requires Wf(t, lo, hi) && e in Elems(t)
    ensures lo <= e.range.lo <= e.range.hi <= hi
    decreases t
  {
    var r := t.v.range;
    if e in Elems(t.left) { EntryBounds(t.left, lo, r.lo - 1, e); }
    else if e in Elems(t.right) { EntryBounds(t.right, r.hi + 1, hi, e); }
    else if e in Elems(t.mid) { EntryBounds(t.mid, r.lo, r.hi, e); }
  }

  // ---------------------------------------------------------------- steps down

  /** The three slots of a node. */
  datatype Side = Left | Middle | Right

  function Child(t: Tree, s: Side): (c: Tree)
    requires t.Node?
    ensures c < t
  {
    match s case Left => t.left case Middle => t.mid case Right => t.right
  }

  /** Write c into the slot. */
  function Graft(t: Tree, s: Side, c: Tree): Tree
    requires t.Node?
  {
    match s case Left => t.(left := c) case Middle => t.(mid := c) case Right => t.(right := c)
  }

  /** The slot a comparison leads to. */
  function SideOf(o: Order): Side
    requires o.Precedes? || o.Follows? || o.Contained?
  {
    match o case Precedes => Left case Contained => Middle case Follows => Right
  }

  /** The part of the address space a slot stands for. */
  function Low(t: Tree, s: Side, lo: int): int
    requires t.Node?
  {
    match s case Left => lo case Middle => t.v.range.lo case Right => t.v.range.hi + 1
  }

  function High(t: Tree, s: Side, hi: int): int
    requires t.Node?
  {
    match s case Left => t.v.range.lo - 1 case Middle => t.v.range.hi case Right => hi
  }

  /** Rewriting a slot with something that fits there keeps the shape. */
  lemma GraftKeeps(t: Tree, s: Side, c: Tree, lo: int, hi: int)
    requires t.Node? && Wf(t, lo, hi) && Wf(c, Low(t, s, lo), High(t, s, hi))
    requires s.Middle? ==> All(c, Unequal, t.v.range)
    ensures Wf(Graft(t, s, c), lo, hi)
  {}

  lemma ChildFits(t: Tree, s: Side, lo: int, hi: int)
    requires t.Node? && Wf(t, lo, hi)
    ensures Wf(Child(t, s), Low(t, s, lo), High(t, s, hi)) && lo <= Low(t, s, lo) && High(t, s, hi) <= hi
    ensures s.Middle? ==> All(Child(t, s), Unequal, t.v.range)
  {}

  /** The entries outside one slot. */
  ghost function Rest(t: Tree, s: Side): set<Entry>
    requires t.Node?
  {
    Elems(Graft(t, s, Nil))
  }

  lemma GraftEntries(t: Tree, s: Side, c: Tree)
    requires t.Node?
    ensures Elems(Graft(t, s, c)) == Elems(c) + Rest(t, s)
    ensures Elems(t) == Elems(Child(t, s)) + Rest(t, s)
  {
    assert Elems(Nil) == {};
    match s case Left => case Middle => case Right =>
  }

  // ---------------------------------------------------------------- balance

  function Depth(t: Tree): nat {
    if t.Nil? then 0 else t.depth
  }

  function Max(a: nat, b: nat): nat {
    if a < b then b else a
  }

  /** calcd: the stored depth is one byte wide. */
  function CalcD(p: Tree): Tree
    requires p.Node?
  {
    p.(depth := (Max(Max(Depth(p.left), Depth(p.right)), Depth(p.mid)) + 1) % 256)
  }

  /** balancetree: one rotation when the stored depths differ by more than one. */
  function Balance(p: Tree): Tree
    requires p.Node?
  {
    var dl, dr := Depth(p.left), Depth(p.right);
    if dl > dr + 1 then
      CalcD(p.left.(right := CalcD(p.(left := p.left.right))))
    else if dr > dl + 1 then
      CalcD(p.right.(left := CalcD(p.(right := p.right.left))))
    else
      CalcD(p)
  }

  /** A rotation changes neither the entries nor the shape invariant, whatever
      the stored depths are. */
  lemma BalanceKeeps(p: Tree, lo: int, hi: int)
    requires p.Node? && Wf(p, lo, hi)
    ensures Wf(Balance(p), lo, hi)
  {}

  lemma BalanceEntries(p: Tree)
    requires p.Node?
    ensures Balance(p).Node? && Elems(Balance(p)) == Elems(p)
  {
    var dl, dr := Depth(p.left), Depth(p.right);
    if dl > dr + 1 {
      assert Elems(p) == (Elems(p.left.left) + Elems(p.left.mid) + Elems(p.left.right) + {p.left.v})
                         + Elems(p.mid) + Elems(p.right) + {p.v};
    } else if dr > dl + 1 {
      assert Elems(p) == Elems(p.left) + Elems(p.mid)
                         + (Elems(p.right.left) + Elems(p.right.mid) + Elems(p.right.right) + {p.right.v}) + {p.v};
    }
  }

  lemma BalanceAll(p: Tree, k: Relation, r: Range)
    requires p.Node? && All(p, k, r)
    ensures All(Balance(p), k, r)
  {}

  // ---------------------------------------------------------------- insertion

  /** The update rule when a range is already present: a route that is not a
      local interface is superseded; an interface counts further interfaces. */
  function Supersede(was: Entry, added: Entry): Entry {
    if !IsIfc(was) then was.(rtype := added.rtype, gate := added.gate)
    else if IsIfc(added) then was.(ref := was.ref + 1)
    else was
  }

  /** Outcome of an insertion: the tree, the subtrees pushed on the reinsertion
      queue (most recent first) and the nodes given back to the free list. */
  datatype Added = Added(tree: Tree, queued: seq<Tree>, freed: seq<Route>)

  function AddNode(t: Tree, n: Tree): (a: Added)
    requires n.Node?
    ensures a.tree.Node? && |a.queued| <= 1
    ensures forall q :: q in a.queued ==> q.Node?
    decreases t
  {
    if t.Nil? then Added(n.(depth := 1), [], [])
    else
      var o := Compare(n.v.range, t.v.range);
      if o == Contains then Added(Balance(n.(depth := 1)), [t], [])
      else if o == Equals then Added(Balance(t.(v := Supersede(t.v, n.v))), [], [n.id])
      else
        var a := AddNode(Child(t, SideOf(o)), n);
        a.(tree := Balance(Graft(t, SideOf(o), a.tree)))
  }

  /** A node ready for insertion: no siblings, its mid still attached. */
  predicate IsLoose(n: Tree) {
    n.Node? && n.left.Nil? && n.right.Nil?
  }

  ghost function QueueElems(q: seq<Tree>): set<Entry> {
    if q == [] then {} else Elems(q[0]) + QueueElems(q[1..])
  }

  /** Any relation the ranges already have to r survives an insertion. */
  lemma {:induction false} AddAll(t: Tree, n: Tree, k: Relation, r: Range)
    requires n.Node? && All(t, k, r) && All(n, k, r)
    ensures All(AddNode(t, n).tree, k, r)
    ensures forall q :: q in AddNode(t, n).queued ==> All(q, k, r)
    decreases t
  {
    if t.Node? {
      var o := Compare(n.v.range, t.v.range);
      if o == Contains {
        BalanceAll(n.(depth := 1), k, r);
      } else if o == Equals {
        BalanceAll(t.(v := Supersede(t.v, n.v)), k, r);
      } else {
        AddAll(Child(t, SideOf(o)), n, k, r);
        BalanceAll(Graft(t, SideOf(o), AddNode(Child(t, SideOf(o)), n).tree), k, r);
      }
    }
  }

  /** The new node goes further down, in slot s. */
  ghost predicate GoesDown(t: Tree, n: Tree, s: Side, lo: int, hi: int) {
    && t.Node? && Wf(t, lo, hi) && IsLoose(n) && Wf(n, lo, hi) && All(t, Nested, n.v.range)
    && var o := Compare(n.v.range, t.v.range); o != Contains && o != Equals && s == SideOf(o)
  }

  lemma DownFits(t: Tree, n: Tree, s: Side, lo: int, hi: int)
    requires GoesDown(t, n, s, lo, hi)
    ensures var lo', hi' := Low(t, s, lo), High(t, s, hi);
            Wf(Child(t, s), lo', hi') && Wf(n, lo', hi') && lo <= lo' && hi' <= hi
    ensures All(Child(t, s), Nested, n.v.range)
  {}

  lemma DownShape(t: Tree, n: Tree, s: Side, lo: int, hi: int)
    requires GoesDown(t, n, s, lo, hi) && Wf(AddNode(Child(t, s), n).tree, Low(t, s, lo), High(t, s, hi))
    ensures Wf(AddNode(t, n).tree, lo, hi)
  {
    var c := AddNode(Child(t, s), n).tree;
    if s.Middle? {
      BoundedUnequal(n.mid, n.v.range.lo, n.v.range.hi, t.v.range);
      AddAll(t.mid, n, Unequal, t.v.range);
    }
    GraftKeeps(t, s, c, lo, hi);
    BalanceKeeps(Graft(t, s, c), lo, hi);
  }

  /** Insertion keeps the shape of the tree. */
  lemma {:induction false} AddShape(t: Tree, n: Tree, lo: int, hi: int)
    requires Wf(t, lo, hi) && IsLoose(n) && Wf(n, lo, hi) && All(t, Nested, n.v.range)
    ensures Wf(AddNode(t, n).tree, lo, hi)
    ensures forall q :: q in AddNode(t, n).queued ==> Wf(q, lo, hi)
    decreases t
  {
    if t.Node? {
      var o := Compare(n.v.range, t.v.range);
      if o == Contains {
        BalanceKeeps(n.(depth := 1), lo, hi);
      } else if o == Equals {
        BalanceKeeps(t.(v := Supersede(t.v, n.v)), lo, hi);
      } else {
        var s := SideOf(o);
        DownFits(t, n, s, lo, hi);
        AddShape(Child(t, s), n, Low(t, s, lo), High(t, s, hi));
        forall q | q in AddNode(t, n).queued
          ensures Wf(q, lo, hi)
        {
          WfWiden(q, Low(t, s, lo), High(t, s, hi), lo, hi);
        }
        DownShape(t, n, s, lo, hi);
      }
    }
  }

  lemma {:induction false} BoundedUnequal(t: Tree, lo: int, hi: int, x: Range)
    requires Wf(t, lo, hi) && (x.lo < lo || hi < x.hi)
    ensures All(t, Unequal, x)
    decreases t
  {
    if t.Node? {
      BoundedUnequal(t.left, lo, t.v.range.lo - 1, x);
      BoundedUnequal(t.right, t.v.range.hi + 1, hi, x);
      BoundedUnequal(t.mid, t.v.range.lo, t.v.range.hi, x);
    }
  }

  /** Without an equal range, insertion loses and invents no entry. */
  lemma {:induction false} AddEntries(t: Tree, n: Tree)
    requires n.Node? && AddNode(t, n).freed == []
    ensures Elems(AddNode(t, n).tree) + QueueElems(AddNode(t, n).queued) == Elems(t) + Elems(n)
    decreases t
  {
    if t.Node? {
      var o := Compare(n.v.range, t.v.range);
      if o == Contains {
        BalanceEntries(n.(depth := 1));
        assert [t][1..] == [];
      } else if o == Equals {
        assert false;
      } else {
        var c := AddNode(Child(t, SideOf(o)), n).tree;
        AddEntries(Child(t, SideOf(o)), n);
        GraftEntries(t, SideOf(o), c);
        BalanceEntries(Graft(t, SideOf(o), c));
      }
    }
  }

  // ---------------------------------------------------------------- reinsertion

  /** walkadd: reinsert a whole subtree node by node, each node keeping its mid. */
  function WalkAdd(root: Tree, p: Tree): (a: Added)
    requires p.Node?
    ensures a.tree.Node?
    decreases p, 0
  {
    WalkTail(WalkTail(AddNode(root, p.(left := Nil, right := Nil)), p.left), p.right)
  }

  function WalkTail(a: Added, p: Tree): (b: Added)
    requires a.tree.Node?
    ensures b.tree.Node?
    decreases p, 1
  {
    if p.Nil? then a else Chain(a, WalkAdd(a.tree, p))
  }

  function Chain(a: Added, b: Added): Added {
    Added(b.tree, b.queued + a.queued, b.freed + a.freed)
  }

  /** Each node that reinserting p moves (its left/right spine) can be put beside
      the ranges of root without swallowing one of them. */
  ghost predicate Foreign(root: Tree, p: Tree) {
    p.Node? ==> All(root, Beside, p.v.range) && Foreign(root, p.left) && Foreign(root, p.right)
  }

  /** A range that swallows nothing is neither queueing nor freeing anything. */
  lemma {:induction false} AddBesideQueuesNothing(t: Tree, n: Tree)
    requires n.Node? && All(t, Beside, n.v.range)
    ensures AddNode(t, n).queued == [] && AddNode(t, n).freed == []
    decreases t
  {
    if t.Node? {
      AddBesideQueuesNothing(Child(t, SideOf(Compare(n.v.range, t.v.range))), n);
    }
  }

  lemma {:induction false} BesideNested(t: Tree, r: Range)
    requires All(t, Beside, r)
    ensures All(t, Nested, r)
  {
    if t.Node? {
      BesideNested(t.left, r);
      BesideNested(t.mid, r);
      BesideNested(t.right, r);
    }
  }

  lemma {:induction false} ApartBeside(t: Tree, lo: int, hi: int, r: Range)
    requires Wf(t, lo, hi) && r.lo <= r.hi && (hi < r.lo || r.hi < lo)
    ensures All(t, Beside, r)
    decreases t
  {
    if t.Node? {
      ApartBeside(t.left, lo, t.v.range.lo - 1, r);
      ApartBeside(t.right, t.v.range.hi + 1, hi, r);
      ApartBeside(t.mid, t.v.range.lo, t.v.range.hi, r);
    }
  }

  /** Trees in separate parts of the address space are foreign to each other. */
  lemma {:induction false} ApartForeign(t: Tree, lo: int, hi: int, p: Tree, lo': int, hi': int)
    requires Wf(t, lo, hi) && Wf(p, lo', hi') && (hi < lo' || hi' < lo)
    ensures Foreign(t, p)
    decreases p
  {
    if p.Node? {
      ApartBeside(t, lo, hi, p.v.range);
      ApartForeign(t, lo, hi, p.left, lo', p.v.range.lo - 1);
      ApartForeign(t, lo, hi, p.right, p.v.range.hi + 1, hi');
    }
  }

  lemma {:induction false} AddForeign(root: Tree, n: Tree, p: Tree)
    requires n.Node? && Foreign(root, p) && Foreign(n, p)
    ensures Foreign(AddNode(root, n).tree, p)
    decreases p
  {
    if p.Node? {
      AddAll(root, n, Beside, p.v.range);
      AddForeign(root, n, p.left);
      AddForeign(root, n, p.right);
    }
  }

  lemma {:induction false} WalkAddAll(root: Tree, p: Tree, k: Relation, r: Range)
    requires p.Node? && All(root, k, r) && All(p, k, r)
    ensures All(WalkAdd(root, p).tree, k, r)
    decreases p
  {
    var n := p.(left := Nil, right := Nil);
    AddAll(root, n, k, r);
    var a := AddNode(root, n);
    if p.left.Node? { WalkAddAll(a.tree, p.left, k, r); }
    var b := WalkTail(a, p.left);
    if p.right.Node? { WalkAddAll(b.tree, p.right, k, r); }
  }

  lemma {:induction false} WalkAddForeign(root: Tree, p: Tree, x: Tree)
    requires p.Node? && Foreign(root, x) && Foreign(p, x)
    ensures Foreign(WalkAdd(root, p).tree, x)
    decreases x
  {
    if x.Node? {
      WalkAddAll(root, p, Beside, x.v.range);
      WalkAddForeign(root, p, x.left);
      WalkAddForeign(root, p, x.right);
    }
  }

  lemma {:induction false} QuietWalkAddEntries(root: Tree, p: Tree)
    requires p.Node? && WalkAdd(root, p).freed == [] && WalkAdd(root, p).queued == []
    ensures Elems(WalkAdd(root, p).tree) == Elems(root) + Elems(p)
    decreases p
  {
    var n := p.(left := Nil, right := Nil);
    var a := AddNode(root, n);
    var b := WalkTail(a, p.left);
    AddEntries(root, n);
    if p.left.Node? { QuietWalkAddEntries(a.tree, p.left); }
    if p.right.Node? { QuietWalkAddEntries(b.tree, p.right); }
  }

  /** The top node of p goes in quietly and its siblings can still follow. */
  lemma WalkAddTopShape(root: Tree, p: Tree, lo: int, hi: int)
    requires Wf(root, lo, hi) && p.Node? && Wf(p, lo, hi) && Foreign(root, p)
    ensures var a := AddNode(root, p.(left := Nil, right := Nil));
      && a.queued == [] && a.freed == [] && Wf(a.tree, lo, hi)
      && Foreign(a.tree, p.left) && Foreign(a.tree, p.right)
  {
    var n := p.(left := Nil, right := Nil);
    AddBesideQueuesNothing(root, n);
    TopShape(root, p, lo, hi);
    SpineForeign(root, p, lo, hi);
  }

  lemma TopShape(root: Tree, p: Tree, lo: int, hi: int)
    requires Wf(root, lo, hi) && p.Node? && Wf(p, lo, hi) && All(root, Beside, p.v.range)
    ensures Wf(AddNode(root, p.(left := Nil, right := Nil)).tree, lo, hi)
  {
    BesideNested(root, p.v.range);
    AddShape(root, p.(left := Nil, right := Nil), lo, hi);
  }

  lemma SiblingsFit(p: Tree, lo: int, hi: int)
    requires p.Node? && Wf(p, lo, hi)
    ensures Wf(p.left, lo, hi) && Wf(p.right, lo, hi) && Foreign(p.left, p.right)
  {
    var x := p.v.range;
    WfWiden(p.left, lo, x.lo - 1, lo, hi);
    WfWiden(p.right, x.hi + 1, hi, lo, hi);
    ApartForeign(p.left, lo, x.lo - 1, p.right, x.hi + 1, hi);
  }

  /** Reinserting a subtree queues nothing, frees nothing and keeps the shape. */
  lemma {:induction false} WalkAddShape(root: Tree, p: Tree, lo: int, hi: int)
    requires Wf(root, lo, hi) && p.Node? && Wf(p, lo, hi) && Foreign(root, p)
    ensures var a := WalkAdd(root, p); a.queued == [] && a.freed == [] && Wf(a.tree, lo, hi)
    decreases p, 0
  {
    var a := AddNode(root, p.(left := Nil, right := Nil));
    WalkAddTopShape(root, p, lo, hi);
    SiblingsFit(p, lo, hi);
    WalkTailShape(a, p.left, lo, hi);
    if p.left.Node? {
      WalkAddForeign(a.tree, p.left, p.right);
    }
    WalkTailShape(WalkTail(a, p.left), p.right, lo, hi);
  }

  lemma {:induction false} WalkTailShape(a: Added, p: Tree, lo: int, hi: int)
    requires a.tree.Node? && a.queued == [] && a.freed == []
    requires Wf(a.tree, lo, hi) && Wf(p, lo, hi) && Foreign(a.tree, p)
    ensures var b := WalkTail(a, p); b.queued == [] && b.freed == [] && Wf(b.tree, lo, hi)
    decreases p, 1
  {
    if p.Node? {
      WalkAddShape(a.tree, p, lo, hi);
    }
  }

  /** Reinserting a queued subtree puts back exactly its routes, queues no other
      node and frees none. */
  lemma WalkAddEntries(root: Tree, p: Tree, lo: int, hi: int)
    requires Wf(root, lo, hi) && p.Node? && Wf(p, lo, hi) && Foreign(root, p)
    ensures var a := WalkAdd(root, p); a.queued == [] && a.freed == [] && Elems(a.tree) == Elems(root) + Elems(p)
  {
    WalkAddShape(root, p, lo, hi);
    QuietWalkAddEntries(root, p);
  }

  /** Once the top node of p is back in, its siblings can still follow. */
  lemma SpineForeign(root: Tree, p: Tree, lo: int, hi: int)
    requires p.Node? && Wf(p, lo, hi) && Foreign(root, p)
    ensures var a := AddNode(root, p.(left := Nil, right := Nil));
      Foreign(a.tree, p.left) && Foreign(a.tree, p.right)
  {
    var n, x := p.(left := Nil, right := Nil), p.v.range;
    assert Wf(n, x.lo, x.hi);
    ApartForeign(n, x.lo, x.hi, p.left, lo, x.lo - 1);
    AddForeign(root, n, p.left);
    ApartForeign(n, x.lo, x.hi, p.right, x.hi + 1, hi);
    AddForeign(root, n, p.right);
  }

  // ---------------------------------------------------------------- the queue loop

  /** The queue may be emptied into the tree in order. */
  ghost predicate Drainable(root: Tree, q: seq<Tree>, lo: int, hi: int) {
    && Wf(root, lo, hi)
    && (forall i :: 0 <= i < |q| ==> q[i].Node? && Wf(q[i], lo, hi) && Foreign(root, q[i]))
    && PairwiseForeign(q)
  }

  /** Earlier subtrees do not get in the way of later ones. */
  ghost predicate PairwiseForeign(q: seq<Tree>) {
    forall i, j :: 0 <= i < j < |q| ==> Foreign(q[i], q[j])
  }

  /** One turn of the loop takes one subtree off the queue and puts none on it. */
  lemma DrainStep(root: Tree, q: seq<Tree>, lo: int, hi: int)
    requires Drainable(root, q, lo, hi) && q != []
    ensures var a := WalkAdd(root, q[0]);
      && a.queued == [] && a.freed == []
      && Elems(a.tree) == Elems(root) + Elems(q[0])
      && Drainable(a.tree, q[1..], lo, hi)
  {
    WalkAddShape(root, q[0], lo, hi);
    WalkAddEntries(root, q[0], lo, hi);
    forall i | 0 <= i < |q[1..]| ensures Foreign(WalkAdd(root, q[0]).tree, q[1..][i]) {
      WalkAddForeign(root, q[0], q[i + 1]);
    }
  }

  /** The `while(p = f->queue)` loop. */
  ghost function Drain(root: Tree, q: seq<Tree>, lo: int, hi: int): Tree
    requires Drainable(root, q, lo, hi)
    decreases |q|
  {
    if q == [] then root
    else
      DrainStep(root, q, lo, hi);
      Drain(WalkAdd(root, q[0]).tree, q[1..], lo, hi)
  }

  lemma {:induction false} DrainKeeps(root: Tree, q: seq<Tree>, lo: int, hi: int)
    requires Drainable(root, q, lo, hi)
    ensures Wf(Drain(root, q, lo, hi), lo, hi)
    ensures Elems(Drain(root, q, lo, hi)) == Elems(root) + QueueElems(q)
    decreases |q|
  {
    if q != [] {
      DrainStep(root, q, lo, hi);
      DrainKeeps(WalkAdd(root, q[0]).tree, q[1..], lo, hi);
    }
  }

  // ---------------------------------------------------------------- one add

  /** looknode: the subtree whose root carries exactly range r, if the walk
      reaches it. */
  function LookNode(t: Tree, r: Range): Tree
    decreases t
  {
    if t.Nil? then Nil
    else
      var o := Compare(r, t.v.range);
      if o == Contains then Nil
      else if o == Equals then t
      else
        LookNode(Child(t, SideOf(o)), r)
  }

  /** The walk misses no entry. */
  lemma {:induction false} LookNodeComplete(t: Tree, lo: int, hi: int, e: Entry)
    requires Wf(t, lo, hi) && e in Elems(t)
    ensures LookNode(t, e.range).Node? && LookNode(t, e.range).v == e
    decreases t
  {
    if e != t.v {
      var s := if e in Elems(t.left) then Left else if e in Elems(t.right) then Right else Middle;
      ChildFits(t, s, lo, hi);
      EntryBounds(Child(t, s), Low(t, s, lo), High(t, s, hi), e);
      AllMeaning(t.mid, Unequal, t.v.range);
      LookNodeComplete(Child(t, s), Low(t, s, lo), High(t, s, hi), e);
    }
  }

  lemma {:induction false} LookNodeSound(t: Tree, r: Range)
    requires LookNode(t, r).Node?
    ensures LookNode(t, r).v in Elems(t) && LookNode(t, r).v.range == r
    decreases t
  {
    var o := Compare(r, t.v.range);
    if o != Equals {
      LookNodeSound(Child(t, SideOf(o)), r);
      GraftEntries(t, SideOf(o), Nil);
    }
  }

  /** Exactly one outcome: the range is present and the new node is freed, or it
      is absent and nothing is freed. */
  lemma {:induction false} AddFreesWhenPresent(t: Tree, n: Tree)
    requires n.Node?
    ensures AddNode(t, n).freed == if LookNode(t, n.v.range).Node? then [n.id] else []
    ensures LookNode(t, n.v.range).Node? ==> AddNode(t, n).queued == []
    decreases t
  {
    if t.Node? {
      var o := Compare(n.v.range, t.v.range);
      if o == Contains {
      } else if o == Equals {
      } else {
        AddFreesWhenPresent(Child(t, SideOf(o)), n);
      }
    }
  }

  /** Replacing the entry at a present range touches no other entry. */
  ghost predicate Replaces(s': set<Entry>, s: set<Entry>, was: Entry, now: set<Entry>) {
    s' == s - {was} + now
  }

  /** An entry below one slot is nowhere else in the tree. */
  lemma RestApart(t: Tree, s: Side, e: Entry, lo: int, hi: int)
    requires Wf(t, lo, hi) && t.Node? && e in Elems(Child(t, s))
    ensures e !in Rest(t, s)
  {
    var x := t.v.range;
    AllMeaning(t.mid, Unequal, x);
    assert Elems(Nil) == {};
    if e in Elems(t.left) { EntryBounds(t.left, lo, x.lo - 1, e); }
    if e in Elems(t.mid) { EntryBounds(t.mid, x.lo, x.hi, e); }
    if e in Elems(t.right) { EntryBounds(t.right, x.hi + 1, hi, e); }
  }

  lemma ReplaceChild(t: Tree, s: Side, c: set<Entry>, was: Entry, now: set<Entry>, lo: int, hi: int)
    requires Wf(t, lo, hi) && t.Node? && was in Elems(Child(t, s)) && Replaces(c, Elems(Child(t, s)), was, now)
    ensures Replaces(c + Rest(t, s), Elems(t), was, now)
  {
    RestApart(t, s, was, lo, hi);
    GraftEntries(t, s, Nil);
  }

  lemma ReplaceRoot(t: Tree, now: set<Entry>, lo: int, hi: int)
    requires Wf(t, lo, hi) && t.Node?
    ensures Replaces(Elems(t.left) + Elems(t.mid) + Elems(t.right) + now, Elems(t), t.v, now)
  {
    var x := t.v.range;
    AllMeaning(t.mid, Unequal, x);
    if t.v in Elems(t.left) { EntryBounds(t.left, lo, x.lo - 1, t.v); }
    if t.v in Elems(t.right) { EntryBounds(t.right, x.hi + 1, hi, t.v); }
  }

  /** A range already present: exactly its entry is rewritten. */
  lemma {:induction false} AddPresentEntries(t: Tree, n: Tree, lo: int, hi: int)
    requires Wf(t, lo, hi) && n.Node? && LookNode(t, n.v.range).Node?
    ensures var was := LookNode(t, n.v.range).v;
      Replaces(Elems(AddNode(t, n).tree), Elems(t), was, {Supersede(was, n.v)})
    ensures AddNode(t, n).queued == []
    decreases t
  {
    var was := LookNode(t, n.v.range).v;
    var now := {Supersede(was, n.v)};
    var o := Compare(n.v.range, t.v.range);
    if o == Contains {
      assert false;
    } else if o == Equals {
      BalanceEntries(t.(v := Supersede(t.v, n.v)));
      ReplaceRoot(t, now, lo, hi);
    } else {
      var s := SideOf(o);
      var c := AddNode(Child(t, s), n).tree;
      ChildFits(t, s, lo, hi);
      LookNodeSound(Child(t, s), n.v.range);
      AddPresentEntries(Child(t, s), n, Low(t, s, lo), High(t, s, hi));
      GraftEntries(t, s, c);
      BalanceEntries(Graft(t, s, c));
      ReplaceChild(t, s, Elems(c), was, now, lo, hi);
    }
  }

  function Leaf(id: Route, e: Entry): Tree {
    Node(id, Nil, Nil, Nil, e, 0)
  }

  lemma {:induction false} ForeignBalance(p: Tree, q: Tree)
    requires p.Node? && Foreign(p, q)
    ensures Foreign(Balance(p), q)
    decreases q
  {
    if q.Node? {
      BalanceAll(p, Beside, q.v.range);
      ForeignBalance(p, q.left);
      ForeignBalance(p, q.right);
    }
  }

  lemma {:induction false} ForeignGraft(t: Tree, s: Side, c: Tree, q: Tree)
    requires t.Node? && Foreign(Graft(t, s, Nil), q) && Foreign(c, q)
    ensures Foreign(Graft(t, s, c), q)
    decreases q
  {
    if q.Node? {
      ForeignGraft(t, s, c, q.left);
      ForeignGraft(t, s, c, q.right);
    }
  }

  /** A range is foreign to whatever lies strictly inside it. */
  lemma {:induction false} HullForeign(n: Tree, q: Tree, lo: int, hi: int)
    requires n.Node? && n == Leaf(n.id, n.v) && n.v.range.lo <= lo && hi <= n.v.range.hi
    requires Wf(q, lo, hi) && All(q, Unequal, n.v.range)
    ensures Foreign(n, q)
    decreases q
  {
    if q.Node? {
      HullForeign(n, q.left, lo, q.v.range.lo - 1);
      HullForeign(n, q.right, q.v.range.hi + 1, hi);
    }
  }

  /** A range reaching past a stretch of ranges is inside none of them. */
  lemma {:induction false} OverhangForeign(n: Tree, q: Tree, lo: int, hi: int)
    requires n.Node? && n == Leaf(n.id, n.v) && Wf(q, lo, hi) && All(q, Nested, n.v.range)
    requires n.v.range.lo < lo || hi < n.v.range.hi
    ensures Foreign(n, q)
    decreases q
  {
    if q.Node? {
      OverhangForeign(n, q.left, lo, q.v.range.lo - 1);
      OverhangForeign(n, q.right, q.v.range.hi + 1, hi);
    }
  }

  /** What surrounds a slot of t is foreign to anything that fits in the slot. */
  lemma SurroundForeign(t: Tree, s: Side, q: Tree, lo: int, hi: int)
    requires t.Node? && Wf(t, lo, hi) && Wf(q, Low(t, s, lo), High(t, s, hi))
    requires s.Middle? ==> All(q, Unequal, t.v.range)
    ensures Foreign(Graft(t, s, Nil), q)
  {
    var x, own := t.v.range, Leaf(t.id, t.v);
    match s
    case Left => ApartForeign(t.(left := Nil), x.lo, hi, q, lo, x.lo - 1);
    case Right => ApartForeign(t.(right := Nil), lo, x.hi, q, x.hi + 1, hi);
    case Middle =>
      HullForeign(own, q, x.lo, x.hi);
      ApartForeign(t.left, lo, x.lo - 1, q, x.lo, x.hi);
      ApartForeign(t.right, x.hi + 1, hi, q, x.lo, x.hi);
      ForeignGraft(own, Left, t.left, q);
      ForeignGraft(own.(left := t.left), Right, t.right, q);
      ForeignSame(own.(left := t.left, right := t.right), t.(mid := Nil), q);
  }

  /** Only the ranges matter. */
  lemma {:induction false} ForeignSame(t: Tree, t': Tree, q: Tree)
    requires t.Node? && t'.Node? && Foreign(t, q)
    requires t.v.range == t'.v.range && t.left == t'.left && t.mid == t'.mid && t.right == t'.right
    ensures Foreign(t', q)
    decreases q
  {
    if q.Node? {
      ForeignSame(t, t', q.left);
      ForeignSame(t, t', q.right);
    }
  }

  /** The subtree a new range displaces keeps its shape and is foreign to what
      stays. */
  lemma {:induction false} DisplacedForeign(t: Tree, id: Route, e: Entry, lo: int, hi: int)
    requires Wf(t, lo, hi) && lo <= e.range.lo <= e.range.hi <= hi && All(t, Nested, e.range)
    requires AddNode(t, Leaf(id, e)).queued != []
    ensures var a := AddNode(t, Leaf(id, e)); Wf(a.queued[0], lo, hi) && Foreign(a.tree, a.queued[0])
    decreases t
  {
    var n := Leaf(id, e);
    var o := Compare(e.range, t.v.range);
    if o == Contains {
      SwallowedForeign(t, id, e, lo, hi);
    } else if o == Equals {
      assert false;
    } else {
      var s, q := SideOf(o), AddNode(t, n).queued[0];
      var c := AddNode(Child(t, s), n).tree;
      ChildFits(t, s, lo, hi);
      DisplacedForeign(Child(t, s), id, e, Low(t, s, lo), High(t, s, hi));
      assert q in AddNode(Child(t, s), n).queued;
      if s.Middle? { AddAll(t.mid, n, Unequal, t.v.range); }
      SurroundForeign(t, s, q, lo, hi);
      ForeignGraft(t, s, c, q);
      ForeignBalance(Graft(t, s, c), q);
      WfWiden(q, Low(t, s, lo), High(t, s, hi), lo, hi);
    }
  }

  lemma SwallowedForeign(t: Tree, id: Route, e: Entry, lo: int, hi: int)
    requires t.Node? && Wf(t, lo, hi) && All(t, Nested, e.range) && Compare(e.range, t.v.range) == Contains
    ensures Foreign(Balance(Node(id, Nil, Nil, Nil, e, 1)), t)
  {
    var x, n := t.v.range, Leaf(id, e);
    OverhangForeign(n, t.left, lo, x.lo - 1);
    OverhangForeign(n, t.right, x.hi + 1, hi);
    assert Foreign(n, t);
    ForeignSame(n, n.(depth := 1), t);
    ForeignBalance(n.(depth := 1), t);
  }

  /** The tree is well formed over the address space and r can be added to it. */
  ghost predicate Ready(t: Tree, r: Range, lo: int, hi: int) {
    Wf(t, lo, hi) && All(t, Nested, r) && lo <= r.lo <= r.hi <= hi
  }

  /** Whatever one insertion queues can be emptied back into the tree. */
  lemma AddDrainable(t: Tree, id: Route, e: Entry, lo: int, hi: int)
    requires Ready(t, e.range, lo, hi)
    ensures var a := AddNode(t, Leaf(id, e)); Drainable(a.tree, a.queued, lo, hi)
  {
    AddShape(t, Leaf(id, e), lo, hi);
    if AddNode(t, Leaf(id, e)).queued != [] {
      DisplacedForeign(t, id, e, lo, hi);
    }
  }

  /** v4addroute on one tree: insert, then empty the queue. */
  ghost function AddRoute(t: Tree, id: Route, e: Entry, lo: int, hi: int): Tree
    requires Ready(t, e.range, lo, hi)
  {
    AddDrainable(t, id, e, lo, hi);
    var a := AddNode(t, Leaf(id, e));
    Drain(a.tree, a.queued, lo, hi)
  }

  // ---------------------------------------------------------------- tables

  /** What a table entry carries besides its range. */
  datatype Info = Info(rtype: bv8, gate: nat, ref: int)

  /** The abstract routing table: one entry per range. */
  type Table = map<Range, Info>

  function EntryOf(r: Range, i: Info): Entry {
    Entry(r, i.rtype, i.gate, i.ref)
  }

  /** The set of entries s is the table m. */
  ghost predicate Represents(s: set<Entry>, m: Table) {
    && (forall e :: e in s ==> e.range in m && m[e.range] == InfoOf(e))
    && (forall r :: r in m ==> EntryOf(r, m[r]) in s)
  }

  /** Adding to the table. */
  function TableAdd(m: Table, e: Entry): Table {
    if e.range in m then
      var now := Supersede(EntryOf(e.range, m[e.range]), e);
      m[e.range := InfoOf(now)]
    else m[e.range := InfoOf(e)]
  }

  function InfoOf(e: Entry): Info {
    Info(e.rtype, e.gate, e.ref)
  }

  lemma RepresentsReplace(s: set<Entry>, m: Table, was: Entry, now: Entry)
    requires Represents(s, m) && was in s && now.range == was.range
    ensures Represents(s - {was} + {now}, m[was.range := InfoOf(now)])
  {}

  lemma RepresentsInsert(s: set<Entry>, m: Table, e: Entry)
    requires Represents(s, m) && e.range !in m
    ensures Represents(s + {e}, m[e.range := InfoOf(e)])
  {}

  lemma RepresentsRemove(s: set<Entry>, m: Table, was: Entry)
    requires Represents(s, m) && was in s
    ensures Represents(s - {was}, m - {was.range})
  {}

  /** Adding a route keeps the tree well formed and is one table update. */
  lemma AddRouteCorrect(t: Tree, id: Route, e: Entry, lo: int, hi: int, m: Table)
    requires Ready(t, e.range, lo, hi) && Represents(Elems(t), m)
    ensures Wf(AddRoute(t, id, e, lo, hi), lo, hi)
    ensures Represents(Elems(AddRoute(t, id, e, lo, hi)), TableAdd(m, e))
  {
    var n := Leaf(id, e);
    var a := AddNode(t, n);
    AddDrainable(t, id, e, lo, hi);
    DrainKeeps(a.tree, a.queued, lo, hi);
    AddedEntries(t, id, e, lo, hi, m);
  }

  lemma AddedEntries(t: Tree, id: Route, e: Entry, lo: int, hi: int, m: Table)
    requires Ready(t, e.range, lo, hi) && Represents(Elems(t), m)
    ensures var a := AddNode(t, Leaf(id, e));
            Represents(Elems(a.tree) + QueueElems(a.queued), TableAdd(m, e))
  {
    if LookNode(t, e.range).Node? {
      PresentEntries(t, id, e, lo, hi, m);
    } else {
      AbsentEntries(t, id, e, lo, hi, m);
    }
  }

  lemma PresentEntries(t: Tree, id: Route, e: Entry, lo: int, hi: int, m: Table)
    requires Ready(t, e.range, lo, hi) && Represents(Elems(t), m) && LookNode(t, e.range).Node?
    ensures var a := AddNode(t, Leaf(id, e));
            Represents(Elems(a.tree) + QueueElems(a.queued), TableAdd(m, e))
  {
    LookNodeSound(t, e.range);
    AddPresentEntries(t, Leaf(id, e), lo, hi);
    var was := LookNode(t, e.range).v;
    var a := AddNode(t, Leaf(id, e));
    assert QueueElems(a.queued) == {};
    RepresentsReplace(Elems(t), m, was, Supersede(was, e));
  }

  lemma AbsentEntries(t: Tree, id: Route, e: Entry, lo: int, hi: int, m: Table)
    requires Ready(t, e.range, lo, hi) && Represents(Elems(t), m) && LookNode(t, e.range).Nil?
    ensures var a := AddNode(t, Leaf(id, e));
            Represents(Elems(a.tree) + QueueElems(a.queued), TableAdd(m, e))
  {
    AddFreesWhenPresent(t, Leaf(id, e));
    AddEntries(t, Leaf(id, e));
    LeafElems(id, e);
    if e.range in m {
      LookNodeComplete(t, lo, hi, EntryOf(e.range, m[e.range]));
    }
    RepresentsInsert(Elems(t), m, e);
  }

  lemma LeafElems(id: Route, e: Entry)
    ensures Elems(Leaf(id, e)) == {e}
  {}

  // ---------------------------------------------------------------- deletion

  /** addqueue pushes nothing for an empty slot. */
  function Queueable(t: Tree): seq<Tree> {
    if t.Nil? then [] else [t]
  }

  /** looknode followed by the reference count step of v4delroute: the slot that
      holds the range is emptied when its count reaches zero, and its left, mid
      and right subtrees are pushed on the queue in that order. */
  function DelNode(t: Tree, r: Range): Added
    decreases t
  {
    if t.Nil? then Added(t, [], [])
    else
      var o := Compare(r, t.v.range);
      if o == Contains then Added(t, [], [])
      else if o == Equals then
        if t.v.ref - 1 == 0 then
          Added(Nil, Queueable(t.right) + Queueable(t.mid) + Queueable(t.left), [t.id])
        else Added(t.(v := t.v.(ref := t.v.ref - 1)), [], [])
      else
        var d := DelNode(Child(t, SideOf(o)), r);
        d.(tree := Graft(t, SideOf(o), d.tree))
  }

  /** What stays of an entry when one reference is dropped. */
  ghost function Dropped(e: Entry): set<Entry> {
    if e.ref - 1 == 0 then {} else {e.(ref := e.ref - 1)}
  }

  lemma {:induction false} DelMiss(t: Tree, r: Range)
    requires LookNode(t, r).Nil?
    ensures DelNode(t, r) == Added(t, [], [])
    decreases t
  {
    if t.Node? && Compare(r, t.v.range) != Contains {
      DelMiss(Child(t, SideOf(Compare(r, t.v.range))), r);
    }
  }

  lemma {:induction false} DelAll(t: Tree, r: Range, k: Relation, x: Range)
    requires All(t, k, x)
    ensures All(DelNode(t, r).tree, k, x)
    ensures forall q :: q in DelNode(t, r).queued ==> All(q, k, x)
    decreases t
  {
    if t.Node? {
      var o := Compare(r, t.v.range);
      if o == Contains {
      } else if o == Equals {
      } else {
        DelAll(Child(t, SideOf(o)), r, k, x);
      }
    }
  }

  /** Emptying the slot keeps the shape. */
  lemma {:induction false} DelShape(t: Tree, r: Range, lo: int, hi: int)
    requires Wf(t, lo, hi)
    ensures Wf(DelNode(t, r).tree, lo, hi)
    decreases t
  {
    if t.Node? {
      var o := Compare(r, t.v.range);
      if o == Contains {
      } else if o == Equals {
      } else {
        var s := SideOf(o);
        ChildFits(t, s, lo, hi);
        DelShape(Child(t, s), r, Low(t, s, lo), High(t, s, hi));
        if s.Middle? { DelAll(t.mid, r, Unequal, t.v.range); }
        GraftKeeps(t, s, DelNode(Child(t, s), r).tree, lo, hi);
      }
    }
  }

  /** The children of an emptied slot keep their shape and are foreign to what
      stays. */
  lemma {:induction false} DelForeign(t: Tree, r: Range, lo: int, hi: int, q: Tree)
    requires Wf(t, lo, hi) && q in DelNode(t, r).queued
    ensures q.Node? && Wf(q, lo, hi) && Foreign(DelNode(t, r).tree, q)
    decreases t
  {
    var o := Compare(r, t.v.range);
    if o == Contains {
    } else if o == Equals {
      WfWiden(t.left, lo, t.v.range.lo - 1, lo, hi);
      WfWiden(t.right, t.v.range.hi + 1, hi, lo, hi);
      WfWiden(t.mid, t.v.range.lo, t.v.range.hi, lo, hi);
      NilForeign(q);
    } else {
      var s := SideOf(o);
      ChildFits(t, s, lo, hi);
      DelForeign(Child(t, s), r, Low(t, s, lo), High(t, s, hi), q);
      if s.Middle? { DelAll(t.mid, r, Unequal, t.v.range); }
      SurroundForeign(t, s, q, lo, hi);
      ForeignGraft(t, s, DelNode(Child(t, s), r).tree, q);
      WfWiden(q, Low(t, s, lo), High(t, s, hi), lo, hi);
    }
  }

  lemma {:induction false} NilForeign(q: Tree)
    ensures Foreign(Nil, q)
  {
    if q.Node? { NilForeign(q.left); NilForeign(q.right); }
  }

  /** The queued children are pairwise foreign, so they can be reinserted in
      queue order. */
  lemma {:induction false} DelQueueForeign(t: Tree, r: Range, lo: int, hi: int)
    requires Wf(t, lo, hi)
    ensures PairwiseForeign(DelNode(t, r).queued)
    decreases t
  {
    if t.Node? {
      var x := t.v.range;
      var o := Compare(r, x);
      if o == Contains {
      } else if o == Equals {
        ApartForeign(t.right, x.hi + 1, hi, t.mid, x.lo, x.hi);
        ApartForeign(t.right, x.hi + 1, hi, t.left, lo, x.lo - 1);
        ApartForeign(t.mid, x.lo, x.hi, t.left, lo, x.lo - 1);
      } else {
        var s := SideOf(o);
        ChildFits(t, s, lo, hi);
        DelQueueForeign(Child(t, s), r, Low(t, s, lo), High(t, s, hi));
      }
    }
  }

  lemma {:induction false} QueueElemsConcat(a: seq<Tree>, b: seq<Tree>)
    ensures QueueElems(a + b) == QueueElems(a) + QueueElems(b)
  {
    if a == [] {
      assert a + b == b;
    } else {
      assert (a + b)[1..] == a[1..] + b;
      QueueElemsConcat(a[1..], b);
    }
  }

  lemma QueueableElems(t: Tree)
    ensures QueueElems(Queueable(t)) == Elems(t)
  {
    if t.Node? { assert [t][1..] == []; }
  }

  /** A present range: one reference goes, and nothing else does. */
  lemma {:induction false} DelEntries(t: Tree, r: Range, lo: int, hi: int)
    requires Wf(t, lo, hi) && LookNode(t, r).Node?
    ensures var was, d := LookNode(t, r).v, DelNode(t, r);
      Replaces(Elems(d.tree) + QueueElems(d.queued), Elems(t), was, Dropped(was))
    decreases t
  {
    var was, d := LookNode(t, r).v, DelNode(t, r);
    var o := Compare(r, t.v.range);
    if o == Contains {
      assert false;
    } else if o == Equals {
      QueueableElems(t.right);
      QueueableElems(t.mid);
      QueueableElems(t.left);
      QueueElemsConcat(Queueable(t.right), Queueable(t.mid));
      QueueElemsConcat(Queueable(t.right) + Queueable(t.mid), Queueable(t.left));
      ReplaceRoot(t, Dropped(was), lo, hi);
    } else {
      var s := SideOf(o);
      var dc := DelNode(Child(t, s), r);
      ChildFits(t, s, lo, hi);
      LookNodeSound(Child(t, s), r);
      DelEntries(Child(t, s), r, Low(t, s, lo), High(t, s, hi));
      GraftEntries(t, s, dc.tree);
      ReplaceChild(t, s, Elems(dc.tree) + QueueElems(dc.queued), was, Dropped(was), lo, hi);
    }
  }

  /** What a deletion queues can be emptied back into the tree. */
  lemma DelDrainable(t: Tree, r: Range, lo: int, hi: int)
    requires Wf(t, lo, hi)
    ensures var d := DelNode(t, r); Drainable(d.tree, d.queued, lo, hi)
  {
    var d := DelNode(t, r);
    DelShape(t, r, lo, hi);
    forall i | 0 <= i < |d.queued|
      ensures d.queued[i].Node? && Wf(d.queued[i], lo, hi) && Foreign(d.tree, d.queued[i])
    {
      DelForeign(t, r, lo, hi, d.queued[i]);
    }
    DelQueueForeign(t, r, lo, hi);
  }

  /** v4delroute on one tree. */
  ghost function DelRoute(t: Tree, r: Range, lo: int, hi: int): Tree
    requires Wf(t, lo, hi)
  {
    DelDrainable(t, r, lo, hi);
    var d := DelNode(t, r);
    Drain(d.tree, d.queued, lo, hi)
  }

  /** Dropping one reference in the table. */
  function TableDel(m: Table, r: Range): Table {
    if r !in m then m
    else if m[r].ref - 1 == 0 then m - {r}
    else m[r := m[r].(ref := m[r].ref - 1)]
  }

  lemma RepresentsDropped(s: set<Entry>, m: Table, was: Entry)
    requires Represents(s, m) && was in s
    ensures Represents(s - {was} + Dropped(was), TableDel(m, was.range))
  {
    assert was.range in m && m[was.range] == InfoOf(was);
    if was.ref - 1 == 0 {
      RepresentsRemove(s, m, was);
      assert s - {was} + Dropped(was) == s - {was};
    } else {
      var now := was.(ref := was.ref - 1);
      RepresentsReplace(s, m, was, now);
      assert TableDel(m, was.range) == m[was.range := InfoOf(now)];
    }
  }

  /** Deleting a route keeps the tree well formed and is one table update. */
  lemma DelRouteCorrect(t: Tree, r: Range, lo: int, hi: int, m: Table)
    requires Wf(t, lo, hi) && Represents(Elems(t), m)
    ensures Wf(DelRoute(t, r, lo, hi), lo, hi)
    ensures Represents(Elems(DelRoute(t, r, lo, hi)), TableDel(m, r))
  {
    var d := DelNode(t, r);
    DelDrainable(t, r, lo, hi);
    DrainKeeps(d.tree, d.queued, lo, hi);
    if LookNode(t, r).Node? {
      LookNodeSound(t, r);
      DelEntries(t, r, lo, hi);
      RepresentsDropped(Elems(t), m, LookNode(t, r).v);
    } else {
      DelMiss(t, r);
      assert QueueElems(d.queued) == {};
      if r in m {
        LookNodeComplete(t, lo, hi, EntryOf(r, m[r]));
      }
    }
  }

  // ---------------------------------------------------------------- lookup

  /** The downward walk of v4lookup, with q the best match so far. */
  function Walk(t: Tree, a: nat, q: Tree): Tree
    decreases t
  {
    if t.Nil? then q
    else if a >= t.v.range.lo then
      if a <= t.v.range.hi then Walk(t.mid, a, t) else Walk(t.right, a, q)
    else Walk(t.left, a, q)
  }

  /** r is the most specific range of m that covers a. */
  ghost predicate LongestMatch(m: Table, a: nat, r: Range) {
    && r in m && Covers(r, a)
    && forall x :: x in m && Covers(x, a) ==> Inside(r, x)
  }

  ghost predicate NoMatch(m: Table, a: nat) {
    forall x :: x in m ==> !Covers(x, a)
  }

  /** Every covering entry of t contains what the walk returns. */
  lemma {:induction false} WalkBest(t: Tree, a: nat, q: Tree, lo: int, hi: int, e: Entry)
    requires Wf(t, lo, hi) && e in Elems(t) && Covers(e.range, a)
    ensures Walk(t, a, q).Node? && Walk(t, a, q).v in Elems(t) && Covers(Walk(t, a, q).v.range, a)
    ensures Inside(Walk(t, a, q).v.range, e.range)
    decreases t
  {
    var x := t.v.range;
    if e in Elems(t.left) { EntryBounds(t.left, lo, x.lo - 1, e); }
    if e in Elems(t.right) { EntryBounds(t.right, x.hi + 1, hi, e); }
    if e in Elems(t.mid) { EntryBounds(t.mid, x.lo, x.hi, e); }
    if x.lo <= a <= x.hi {
      if e in Elems(t.mid) {
        WalkBest(t.mid, a, t, x.lo, x.hi, e);
      } else {
        WalkStays(t.mid, a, t, x.lo, x.hi);
      }
    } else if a > x.hi {
      WalkBest(t.right, a, q, x.hi + 1, hi, e);
    } else {
      WalkBest(t.left, a, q, lo, x.lo - 1, e);
    }
  }

  /** The walk ends at the starting candidate or at a covering entry of t. */
  lemma {:induction false} WalkStays(t: Tree, a: nat, q: Tree, lo: int, hi: int)
    requires Wf(t, lo, hi)
    ensures var w := Walk(t, a, q);
      w == q || (w.Node? && w.v in Elems(t) && Covers(w.v.range, a) && lo <= w.v.range.lo && w.v.range.hi <= hi)
    decreases t
  {
    if t.Node? {
      var x := t.v.range;
      if x.lo <= a <= x.hi {
        WalkStays(t.mid, a, t, x.lo, x.hi);
      } else if a > x.hi {
        WalkStays(t.right, a, q, x.hi + 1, hi);
      } else {
        WalkStays(t.left, a, q, lo, x.lo - 1);
      }
    }
  }

  /** The single downward walk is longest-prefix match on the whole table. */
  lemma WalkIsLongestMatch(t: Tree, a: nat, lo: int, hi: int, m: Table)
    requires Wf(t, lo, hi) && Represents(Elems(t), m)
    ensures Walk(t, a, Nil).Nil? <==> NoMatch(m, a)
    ensures Walk(t, a, Nil).Node? ==>
              var e := Walk(t, a, Nil).v; LongestMatch(m, a, e.range) && m[e.range] == InfoOf(e)
  {
    WalkStays(t, a, Nil, lo, hi);
    forall x | x in m && Covers(x, a)
      ensures Walk(t, a, Nil).Node? && Inside(Walk(t, a, Nil).v.range, x)
    {
      WalkBest(t, a, Nil, lo, hi, EntryOf(x, m[x]));
    }
  }

  // ---------------------------------------------------------------- crossing ranges

  /** Routes e and f added in turn to an empty tree, the queue emptied after each. */
  ghost function AddTwo(x: Route, e: Entry, y: Route, f: Entry): Tree {
    var t := AddNode(Nil, Leaf(x, e)).tree;
    var a := AddNode(t, Leaf(y, f));
    if a.queued == [] then a.tree else WalkAdd(a.tree, a.queued[0]).tree
  }

  /** Address a is looked up in t as the table m has it. */
  ghost predicate LooksUp(t: Tree, m: Table, a: nat) {
    var w := Walk(t, a, Nil);
    && (w.Nil? <==> NoMatch(m, a))
    && (w.Node? ==> LongestMatch(m, a, w.v.range) && m[w.v.range] == InfoOf(w.v))
  }

  lemma AddTwoIsAddRoute(x: Route, e: Entry, y: Route, f: Entry, hi: nat)
    requires e.range.lo <= e.range.hi <= hi && f.range.lo <= f.range.hi <= hi && Laminar(e.range, f.range)
    ensures Ready(Nil, e.range, 0, hi) && Ready(AddRoute(Nil, x, e, 0, hi), f.range, 0, hi)
    ensures AddTwo(x, e, y, f) == AddRoute(AddRoute(Nil, x, e, 0, hi), y, f, 0, hi)
  {
    var t := AddNode(Nil, Leaf(x, e)).tree;
    assert AddRoute(Nil, x, e, 0, hi) == t == Leaf(x, e).(depth := 1);
    assert All(t, Nested, f.range);
    AddDrainable(t, y, f, 0, hi);
    var a := AddNode(t, Leaf(y, f));
    if a.queued != [] {
      DrainStep(a.tree, a.queued, 0, hi);
      var b := WalkAdd(a.tree, a.queued[0]).tree;
      assert a.queued[1..] == [] && Drain(b, [], 0, hi) == b;
      assert Drain(a.tree, a.queued, 0, hi) == Drain(b, a.queued[1..], 0, hi);
    }
  }

  /** Crossing ranges: f is filed inside e, so an end of f that sticks out of e is
      missed. */
  lemma CrossingHides(x: Route, e: Entry, y: Route, f: Entry) returns (a: nat)
    requires e.range.lo <= e.range.hi && f.range.lo <= f.range.hi && !Laminar(e.range, f.range)
    ensures Covers(f.range, a) && Walk(AddTwo(x, e, y, f), a, Nil).Nil?
  {
    var t, g := Node(x, Nil, Nil, Nil, e, 1), Node(y, Nil, Nil, Nil, f, 1);
    assert AddNode(Nil, Leaf(x, e)).tree == t && AddNode(Nil, Leaf(y, f)) == Added(g, [], []);
    assert Compare(f.range, e.range) == Contained;
    assert Graft(t, Middle, g) == t.(mid := g);
    assert AddNode(t, Leaf(y, f)) == Added(Balance(t.(mid := g)), [], []);
    a := if f.range.lo < e.range.lo then f.range.lo else f.range.hi;
  }

  /** Two routes are looked up right at every address if and only if their ranges
      are nested or disjoint. */
  lemma CrossingRangesHideRoutes(x: Route, e: Entry, y: Route, f: Entry)
    requires e.range.lo <= e.range.hi && f.range.lo <= f.range.hi
    ensures (forall a: nat :: LooksUp(AddTwo(x, e, y, f), TableAdd(TableAdd(map[], e), f), a)) <==>
              Laminar(e.range, f.range)
  {
    var m := TableAdd(TableAdd(map[], e), f);
    var t := AddTwo(x, e, y, f);
    if Laminar(e.range, f.range) {
      var hi := e.range.hi + f.range.hi;
      AddTwoIsAddRoute(x, e, y, f, hi);
      AddRouteCorrect(Nil, x, e, 0, hi, map[]);
      AddRouteCorrect(AddRoute(Nil, x, e, 0, hi), y, f, 0, hi, TableAdd(map[], e));
      forall a: nat
        ensures LooksUp(t, m, a)
      {
        WalkIsLongestMatch(t, a, 0, hi, m);
      }
    } else {
      var a := CrossingHides(x, e, y, f);
      assert f.range in m && !LooksUp(t, m, a);
    }
  }
}
