/** The routing forest in memory: nodes linked through left, mid and right, a
    reinsertion queue and a free list, each operation proved to do in place what
    the tree functions of RouteTree say. */
module RouteHeap {
  import opened RouteRange
  import opened RouteTree
  import opened RouteTable

  /** The nodes of a tree. */
  ghost function Objs(t: Tree): set<Route> {
    match t
    case Nil => {}
    case Node(id, l, m, r, _, _) => {id} + Objs(l) + Objs(m) + Objs(r)
  }

  /** The slot value p is the memory image of t, with no node shared. */
  ghost predicate Rep(p: Route?, t: Tree)
    reads Objs(t)
    decreases t
  {
    match t
    case Nil => p == null
    case Node(id, l, m, r, v, d) =>
      && p == id && id.v == v && id.depth == d
      && id !in Objs(l) + Objs(m) + Objs(r)
      && Objs(l) !! Objs(m) && Objs(l) !! Objs(r) && Objs(m) !! Objs(r)
      && Rep(id.left, l) && Rep(id.mid, m) && Rep(id.right, r)
  }

  ghost function QueueObjs(q: seq<Tree>): set<Route> {
    if q == [] then {} else Objs(q[0]) + QueueObjs(q[1..])
  }

  /** The nodes on the reinsertion queue are the roots of the trees q. */
  ghost predicate RepQueue(s: seq<Route>, q: seq<Tree>)
    reads QueueObjs(q)
    decreases |q|
  {
    if q == [] then s == []
    else
      && s != [] && Rep(s[0], q[0]) && q[0].Node?
      && Objs(q[0]) !! QueueObjs(q[1..])
      && RepQueue(s[1..], q[1..])
  }

  ghost function Roots(q: seq<Tree>): seq<Route>
    requires forall x :: x in q ==> x.Node?
  {
    if q == [] then [] else [q[0].id] + Roots(q[1..])
  }

  lemma SingleQueue(p: Route, t: Tree)
    requires t.Node? && Rep(p, t)
    ensures Roots([t]) == [p] && QueueObjs([t]) == Objs(t) && RepQueue([p], [t])
  {
    assert [t][1..] == [] && [p][1..] == [];
  }

  lemma Reassociate(a: seq<Tree>, b: seq<Tree>, c: seq<Tree>)
    ensures a + (b + (c + [])) == a + b + c
  {}

  lemma BalanceObjs(t: Tree)
    requires t.Node?
    ensures Objs(Balance(t)) == Objs(t)
  {
    var dl, dr := Depth(t.left), Depth(t.right);
    if dl > dr + 1 {
      assert Objs(t) == {t.id} + ({t.left.id} + Objs(t.left.left) + Objs(t.left.mid) + Objs(t.left.right))
                        + Objs(t.mid) + Objs(t.right);
    } else if dr > dl + 1 {
      assert Objs(t) == {t.id} + Objs(t.left) + Objs(t.mid)
                        + ({t.right.id} + Objs(t.right.left) + Objs(t.right.mid) + Objs(t.right.right));
    }
  }

  method CalcDepth(p: Route, ghost t: Tree)
    requires Rep(p, t)
    modifies p
    ensures Rep(p, CalcD(t)) && Objs(CalcD(t)) == Objs(t)
  {
    var d := 0;
    if p.left != null {
      d := p.left.depth;
    }
    if p.right != null && p.right.depth > d {
      d := p.right.depth;
    }
    if p.mid != null && p.mid.depth > d {
      d := p.mid.depth;
    }
    p.depth := (d + 1) % 256;
  }

  /** The nodes outside slot s. */
  ghost function Around(t: Tree, s: Side): set<Route>
    requires t.Node?
  {
    match s
    case Left => {t.id} + Objs(t.mid) + Objs(t.right)
    case Middle => {t.id} + Objs(t.left) + Objs(t.right)
    case Right => {t.id} + Objs(t.left) + Objs(t.mid)
  }

  /** Everything about t but the slot s, which is being rewritten. */
  ghost predicate RepBut(p: Route?, t: Tree, s: Side)
    requires t.Node?
    reads Around(t, s)
  {
    && p == t.id && t.id.v == t.v && t.id.depth == t.depth
    && (s != Left ==> p !in Objs(t.left) && Rep(t.id.left, t.left))
    && (s != Middle ==> p !in Objs(t.mid) && Rep(t.id.mid, t.mid))
    && (s != Right ==> p !in Objs(t.right) && Rep(t.id.right, t.right))
    && (s == Left ==> Objs(t.mid) !! Objs(t.right))
    && (s == Middle ==> Objs(t.left) !! Objs(t.right))
    && (s == Right ==> Objs(t.left) !! Objs(t.mid))
  }

  lemma GraftObjs(t: Tree, s: Side, c: Tree)
    requires t.Node?
    ensures Objs(Graft(t, s, c)) == Objs(c) + Around(t, s)
    ensures Objs(t) == Objs(Child(t, s)) + Around(t, s)
  {
    match s case Left => case Middle => case Right =>
  }

  lemma Detach(p: Route?, t: Tree, s: Side)
    requires t.Node? && Rep(p, t)
    ensures RepBut(p, t, s) && Rep(Slot(t.id, s), Child(t, s))
    ensures Objs(Child(t, s)) !! Around(t, s)
    ensures Objs(Child(t, s)) + Around(t, s) == Objs(t)
  {
    match s case Left => case Middle => case Right =>
  }

  function Slot(p: Route, s: Side): Route?
    reads p
  {
    match s case Left => p.left case Middle => p.mid case Right => p.right
  }

  /** Store through a slot. */
  method PutChild(p: Route, ghost t: Tree, s: Side, c: Route?, ghost ct: Tree)
    requires t.Node? && RepBut(p, t, s) && Rep(c, ct) && Objs(ct) !! Around(t, s)
    modifies p
    ensures Rep(p, Graft(t, s, ct))
  {
    match s
    case Left => p.left := c;
    case Middle => p.mid := c;
    case Right => p.right := c;
  }

  /** balancetree: rotate at p when the stored depths differ too much. */
  method BalanceTree(p: Route, ghost t: Tree) returns (r: Route)
    requires Rep(p, t)
    modifies Objs(t)
    ensures Rep(r, Balance(t)) && Objs(Balance(t)) == Objs(t)
  {
    var dl, dr := 0, 0;
    if p.left != null {
      dl := p.left.depth;
    }
    if p.right != null {
      dr := p.right.depth;
    }
    BalanceObjs(t);
    if dl > dr + 1 {
      r := RaiseLeft(p, t);
    } else if dr > dl + 1 {
      r := RaiseRight(p, t);
    } else {
      CalcDepth(p, t);
      r := p;
    }
  }

  /** Raise the left child of p, handing its right subtree back to p. */
  method RaiseLeft(p: Route, ghost t: Tree) returns (r: Route)
    requires Rep(p, t) && t.Node? && t.left.Node?
    modifies Objs(t)
    ensures Rep(r, CalcD(t.left.(right := CalcD(t.(left := t.left.right)))))
  {
    r := p.left;
    Detach(p, t, Left);
    Detach(r, t.left, Right);
    ghost var u := Around(t.left, Right);
    assert allocated(u) && p !in u;
    Reseat(p, t, Left, r.right, t.left.right);
    assert unchanged(u);
    Reseat(r, t.left, Right, p, CalcD(t.(left := t.left.right)));
  }

  /** Raise the right child of p, handing its left subtree back to p. */
  method RaiseRight(p: Route, ghost t: Tree) returns (r: Route)
    requires Rep(p, t) && t.Node? && t.right.Node?
    modifies Objs(t)
    ensures Rep(r, CalcD(t.right.(left := CalcD(t.(right := t.right.left)))))
  {
    r := p.right;
    Detach(p, t, Right);
    Detach(r, t.right, Left);
    ghost var u := Around(t.right, Left);
    assert allocated(u) && p !in u;
    Reseat(p, t, Right, r.left, t.right.left);
    assert unchanged(u);
    Reseat(r, t.right, Left, p, CalcD(t.(right := t.right.left)));
  }

  /** Store through a slot and recompute the depth. */
  method Reseat(p: Route, ghost t: Tree, s: Side, c: Route?, ghost ct: Tree)
    requires t.Node? && RepBut(p, t, s) && Rep(c, ct) && Objs(ct) !! Around(t, s)
    modifies p
    ensures Rep(p, CalcD(Graft(t, s, ct))) && Objs(CalcD(Graft(t, s, ct))) == Objs(ct) + Around(t, s)
  {
    GraftObjs(t, s, ct);
    PutChild(p, t, s, c, ct);
    CalcDepth(p, Graft(t, s, ct));
  }

  /** Set bookkeeping for an insertion below slot s. */
  lemma WidenObjs(t: Tree, s: Side, n: Tree, a: Added)
    requires t.Node? && Objs(t) !! Objs(n) && Objs(Child(t, s)) !! Around(t, s)
    requires Objs(a.tree) <= Objs(Child(t, s)) + Objs(n)
    requires QueueObjs(a.queued) <= Objs(Child(t, s)) && QueueObjs(a.queued) !! Objs(a.tree)
    requires forall f :: f in a.freed ==> f in Objs(n) && f !in Objs(a.tree)
    ensures var b := Graft(t, s, a.tree);
      && Objs(a.tree) !! Around(t, s)
      && Objs(b) <= Objs(t) + Objs(n)
      && QueueObjs(a.queued) <= Objs(t) && QueueObjs(a.queued) !! Objs(b)
      && forall f :: f in a.freed ==> f in Objs(n) && f !in Objs(b)
  {
    GraftObjs(t, s, a.tree);
  }

  lemma {:induction false} DelFreesOne(t: Tree, r: Range)
    ensures |DelNode(t, r).freed| <= 1
    decreases t
  {
    if t.Node? && Compare(r, t.v.range) != Contains && Compare(r, t.v.range) != Equals {
      DelFreesOne(Child(t, SideOf(Compare(r, t.v.range))), r);
    }
  }

  lemma OneFreed(freed: seq<Route>, fl: seq<Route>, was: seq<Route>)
    requires |freed| <= 1 && fl == freed + was
    ensures fl == was || (freed != [] && fl != [] && fl[1..] == was && fl[0] == freed[0])
  {}

  /** No node hangs in two trees. */
  ghost predicate Separate(ts: seq<Tree>) {
    forall j, k :: 0 <= j < k < |ts| ==> Objs(ts[j]) !! Objs(ts[k])
  }

  /** f is in none of the trees. */
  ghost predicate Unused(f: Route, ts: seq<Tree>) {
    forall k :: 0 <= k < |ts| ==> f !in Objs(ts[k])
  }

  /** The free list holds distinct nodes, none of them in use. */
  ghost predicate FreeOk(fl: seq<Route>, ts: seq<Tree>, ns: set<Route>) {
    && (forall i, j :: 0 <= i < j < |fl| ==> fl[i] != fl[j])
    && (forall f :: f in fl ==> f in ns && Unused(f, ts))
  }

  lemma FreeTail(fl: seq<Route>, ts: seq<Tree>, ns: set<Route>)
    requires FreeOk(fl, ts, ns) && fl != []
    ensures FreeOk(fl[1..], ts, ns) && fl[0] !in fl[1..]
  {}

  /** Nodes may leave a bucket for the free list, and come into it from outside. */
  lemma BucketChange(fl: seq<Route>, fl': seq<Route>, ts: seq<Tree>, ns: set<Route>, h: nat, d: Tree, extra: set<Route>)
    requires FreeOk(fl, ts, ns) && Separate(ts) && h < |ts|
    requires Objs(d) <= Objs(ts[h]) + extra
    requires forall f :: f in extra ==> Unused(f, ts) && f !in fl
    requires fl' == fl
             || (fl' != [] && fl'[1..] == fl && fl'[0] in ns && fl'[0] in Objs(ts[h]) + extra && fl'[0] !in Objs(d))
    ensures Separate(ts[h := d]) && FreeOk(fl', ts[h := d], ns)
  {
    if fl' != fl {
      assert fl' == [fl'[0]] + fl;
    }
  }

  /** What an add command puts in each node. */
  function NewEntry(a: nat, len: nat, gate: nat, rtype: bv8): Entry
    requires len <= 32
  {
    Entry(PrefixRange(a, len), RV4 | rtype, gate, 1)
  }

  /** The command asked for: this block, these type bits and this gateway, once. */
  ghost predicate Requested(e: Entry, a: nat, len: nat, gate: nat, rtype: bv8) {
    Masked(e.range, a, len) && e.gate == gate && e.rtype == RV4 | rtype && e.ref == 1
  }

  /** Every add counts once. */
  ghost predicate Single(cs: seq<Command>) {
    forall c :: c in cs && c.Add? ==> c.e.ref == 1
  }

  /** The roots lead to the trees ts, all made of nodes ns, none shared. */
  ghost predicate Forest(root: array<Route?>, ts: seq<Tree>, ns: set<Route>)
    reads root, ns
  {
    && root.Length == NBUCKETS == |ts| && Separate(ts)
    && forall h :: 0 <= h < NBUCKETS ==> Objs(ts[h]) <= ns && Rep(root[h], ts[h])
  }

  /** A conversation and the route it used last. */
  class Conv {
    var r: Route?
    var rgen: nat

    constructor ()
      ensures r == null && rgen == 0
    {
      r, rgen := null, 0;
    }
  }

  ghost function RootOf(t: Tree): Route? {
    if t.Nil? then null else t.id
  }

  /** The links and contents of every node; the interface fields are not among
      them. */
  ghost predicate Links(t: Tree)
    reads Objs(t)`left, Objs(t)`mid, Objs(t)`right, Objs(t)`v, Objs(t)`depth
    decreases t
  {
    t.Node? ==>
      && t.id.left == RootOf(t.left) && t.id.mid == RootOf(t.mid) && t.id.right == RootOf(t.right)
      && t.id.v == t.v && t.id.depth == t.depth
      && Links(t.left) && Links(t.mid) && Links(t.right)
  }

  /** The part of Rep that does not depend on memory. */
  ghost predicate Unshared(t: Tree) {
    t.Node? ==>
      && t.id !in Objs(t.left) + Objs(t.mid) + Objs(t.right)
      && Objs(t.left) !! Objs(t.mid) && Objs(t.left) !! Objs(t.right) && Objs(t.mid) !! Objs(t.right)
      && Unshared(t.left) && Unshared(t.mid) && Unshared(t.right)
  }

  lemma {:induction false} RepIsLinks(p: Route?, t: Tree)
    ensures Rep(p, t) <==> p == RootOf(t) && Unshared(t) && Links(t)
    decreases t
  {
    if t.Node? {
      RepIsLinks(t.id.left, t.left);
      RepIsLinks(t.id.mid, t.mid);
      RepIsLinks(t.id.right, t.right);
    }
  }

  lemma {:induction false} WalkInTree(t: Tree, p: Route?, a: nat, q: Tree)
    requires Rep(p, t)
    ensures var w := Walk(t, a, q); w == q || (w.Node? && w.id in Objs(t) && w.id.v == w.v)
    decreases t
  {
    if t.Node? {
      if t.v.range.lo <= a <= t.v.range.hi {
        WalkInTree(t.mid, p.mid, a, t);
      } else if a >= t.v.range.lo {
        WalkInTree(t.right, p.right, a, q);
      } else {
        WalkInTree(t.left, p.left, a, q);
      }
    }
  }

  /** The route table of one IP stack. */
  class Fs {
    const v4root: array<Route?>
    var queue: seq<Route>
    var freelist: seq<Route>
    var generation: nat

    /** The tree below each root. */
    ghost var trees: seq<Tree>
    /** The nodes in use or on the free list. */
    ghost var nodes: set<Route>
    /** The routes in force, as one table. */
    ghost var table: Table
    /** The commands carried out so far. */
    ghost var history: seq<Command>
    /** The conversations using the table, each with its fixed destination. */
    ghost var convs: map<Conv, nat>

    /** Memory is a forest: no node is shared between trees or with the free
        list. */
    ghost predicate Linked()
      reads this`queue, this`freelist, this`trees, this`nodes, v4root, nodes
    {
      queue == [] && Forest(v4root, trees, nodes) && FreeOk(freelist, trees, nodes)
    }

    /** The forest is the table that the commands so far built, and no
        conversation would reuse a stale route. */
    ghost predicate Valid()
      reads this, v4root, nodes, convs.Keys
    {
      && Linked() && Refines(trees, table) && table == ApplyAll(map[], history)
      && AllCoherent() && Single(history)
    }

    ghost predicate AllCoherent()
      requires |trees| == NBUCKETS
      reads this`trees, this`generation, this`convs, convs.Keys
    {
      forall c :: c in convs ==> Coherent(c, convs[c])
    }

    /** What a walk from the root would find now. */
    ghost function Found(a: nat): Tree
      requires |trees| == NBUCKETS
      reads this`trees
    {
      Walk(trees[Hash(a)], a, Nil)
    }

    /** A route cached in this generation is the route a walk would find. */
    ghost predicate Coherent(c: Conv, a: nat)
      requires |trees| == NBUCKETS
      reads this`trees, this`generation, c
    {
      && c.rgen <= generation
      && (c.r != null && c.rgen == generation ==> Found(a).Node? && Found(a).id == c.r)
    }

    constructor ()
      ensures Valid() && history == [] && fresh(v4root) && nodes == {} && convs == map[]
    {
      v4root := new Route?[NBUCKETS](_ => null);
      queue, freelist, generation := [], [], 0;
      trees, nodes, table, history, convs := seq(NBUCKETS, _ => Nil), {}, map[], [], map[];
    }

    /** A new conversation to destination a. */
    ghost method Register(c: Conv, a: nat)
      requires Valid() && c !in convs && c.r == null && c.rgen == 0
      modifies this`convs
      ensures Valid() && convs == old(convs)[c := a]
    {
      convs := convs[c := a];
    }

    /** What an insertion of n into t leaves in memory at slot value r. */
    ghost predicate Landed(r: Route?, a: Added, t: Tree, n: Tree)
      reads Objs(a.tree), QueueObjs(a.queued)
    {
      && (forall x :: x in a.queued ==> x.Node?)
      && Rep(r, a.tree) && RepQueue(Roots(a.queued), a.queued)
      && QueueObjs(a.queued) <= Objs(t) && QueueObjs(a.queued) !! Objs(a.tree)
      && Objs(a.tree) <= Objs(t) + Objs(n)
      && (forall f :: f in a.freed ==> f in Objs(n) && f !in Objs(a.tree))
    }

    /** addnode: put the node nw (with whatever hangs in its mid) into the tree
        below slot p. */
    method AddNode(p: Route?, ghost t: Tree, nw: Route, ghost n: Tree) returns (r: Route)
      requires Rep(p, t) && Rep(nw, n) && IsLoose(n) && Objs(t) !! Objs(n)
      modifies this`queue, this`freelist
      modifies Objs(t), Objs(n)
      ensures var a := RouteTree.AddNode(t, n);
        && Landed(r, a, t, n)
        && queue == Roots(a.queued) + old(queue)
        && freelist == a.freed + old(freelist)
      decreases t, 1
    {
      if p == null {
        nw.depth := 1;
        return nw;
      }
      var o := Compare(nw.v.range, p.v.range);
      if o == Contains {
        r := Displace(p, t, nw, n);
      } else if o == Equals {
        r := Merge(p, t, nw, n);
      } else {
        r := AddBelow(p, t, SideOf(o), nw, n);
      }
    }

    /** addnode below slot s of p. */
    method AddBelow(p: Route, ghost t: Tree, s: Side, nw: Route, ghost n: Tree) returns (r: Route)
      requires Rep(p, t) && t.Node? && Rep(nw, n) && IsLoose(n) && Objs(t) !! Objs(n)
      modifies this`queue, this`freelist
      modifies Objs(t), Objs(n)
      ensures var a := RouteTree.AddNode(Child(t, s), n);
        && Landed(r, a.(tree := Balance(Graft(t, s, a.tree))), t, n)
        && queue == Roots(a.queued) + old(queue)
        && freelist == a.freed + old(freelist)
      decreases t, 0, 1
    {
      Detach(p, t, s);
      var c := Descend(p, t, s, nw, n);
      r := Attach(p, t, s, c, n, RouteTree.AddNode(Child(t, s), n));
    }

    /** Insert below slot s of p; the rest of p's tree is not touched. */
    method Descend(p: Route, ghost t: Tree, s: Side, nw: Route, ghost n: Tree) returns (c: Route)
      requires t.Node? && RepBut(p, t, s) && Rep(Slot(p, s), Child(t, s)) && Objs(Child(t, s)) !! Around(t, s)
      requires Rep(nw, n) && IsLoose(n) && Objs(Child(t, s)) !! Objs(n) && Around(t, s) !! Objs(n)
      modifies this`queue, this`freelist
      modifies Objs(Child(t, s)), Objs(n)
      ensures var a := RouteTree.AddNode(Child(t, s), n);
        && Landed(c, a, Child(t, s), n) && RepBut(p, t, s)
        && queue == Roots(a.queued) + old(queue)
        && freelist == a.freed + old(freelist)
      decreases t, 0, 0
    {
      ghost var u := Around(t, s);
      assert allocated(u) && u !! Objs(Child(t, s)) + Objs(n);
      c := AddNode(Slot(p, s), Child(t, s), nw, n);
      assert unchanged(u);
    }

    /** Back from below slot s: store the grown child and rebalance. */
    method Attach(p: Route, ghost t: Tree, s: Side, c: Route, ghost n: Tree, ghost a: Added) returns (r: Route)
      requires t.Node? && a.tree.Node? && RepBut(p, t, s) && Landed(c, a, Child(t, s), n)
      requires Objs(t) !! Objs(n) && Objs(Child(t, s)) !! Around(t, s)
      modifies Objs(t), Objs(n)
      ensures Landed(r, a.(tree := Balance(Graft(t, s, a.tree))), t, n)
    {
      WidenObjs(t, s, n, a);
      assert allocated(QueueObjs(a.queued));
      r := Regrow(p, t, s, c, a);
    }

    method Regrow(p: Route, ghost t: Tree, s: Side, c: Route, ghost a: Added) returns (r: Route)
      requires t.Node? && a.tree.Node? && RepBut(p, t, s) && Rep(c, a.tree) && Objs(a.tree) !! Around(t, s)
      modifies Objs(Graft(t, s, a.tree))
      ensures var b := Balance(Graft(t, s, a.tree));
        Rep(r, b) && Objs(b) == Objs(Graft(t, s, a.tree))
    {
      GraftObjs(t, s, a.tree);
      PutChild(p, t, s, c, a.tree);
      r := BalanceTree(p, Graft(t, s, a.tree));
    }

    /** The new range contains the node: take its place and queue it. */
    method Displace(p: Route, ghost t: Tree, nw: Route, ghost n: Tree) returns (r: Route)
      requires Rep(p, t) && Rep(nw, n) && n.Node? && Objs(t) !! Objs(n)
      modifies this`queue, Objs(n)
      ensures Landed(r, Added(Balance(n.(depth := 1)), [t], []), t, n)
      ensures queue == [p] + old(queue)
    {
      ghost var u := Objs(t);
      assert allocated(u) && u !! Objs(n);
      StartDepth(nw, n);
      r := BalanceTree(nw, n.(depth := 1));
      queue := [p] + queue;
      assert unchanged(u);
      SingleQueue(p, t);
    }

    method StartDepth(nw: Route, ghost n: Tree)
      requires Rep(nw, n) && n.Node?
      modifies nw
      ensures Rep(nw, n.(depth := 1)) && Objs(n.(depth := 1)) == Objs(n)
    {
      nw.depth := 1;
    }

    /** The range is present: apply the update rule and give the node back. */
    method Merge(p: Route, ghost t: Tree, nw: Route, ghost n: Tree) returns (r: Route)
      requires Rep(p, t) && Rep(nw, n) && t.Node? && n.Node? && Objs(t) !! Objs(n)
      modifies this`freelist, Objs(t), nw
      ensures Landed(r, Added(Balance(t.(v := Supersede(t.v, n.v))), [], [nw]), t, n)
      ensures freelist == [nw] + old(freelist)
    {
      assert allocated(Objs(t));
      Update(p, t, nw.v);
      FreeRoute(nw);
      r := BalanceTree(p, t.(v := Supersede(t.v, n.v)));
    }

    /** The update rule for a range that is present. */
    method Update(p: Route, ghost t: Tree, e: Entry)
      requires Rep(p, t) && t.Node?
      modifies p
      ensures Rep(p, t.(v := Supersede(t.v, e))) && p.ifc == old(p.ifc)
      ensures p.ifcid == if IsIfc(t.v) then old(p.ifcid) else 255
    {
      if !IsIfc(p.v) {
        p.ifcid := 255;
      }
      p.v := Supersede(p.v, e);
    }

    /** walkadd: put the subtree p back below root, node by node. */
    method WalkAdd(root: Route?, ghost t: Tree, p: Route, ghost pt: Tree) returns (r: Route)
      requires Rep(root, t) && Rep(p, pt) && pt.Node? && Objs(t) !! Objs(pt)
      requires var a := RouteTree.WalkAdd(t, pt); a.queued == [] && a.freed == []
      modifies this`queue, this`freelist
      modifies Objs(t), Objs(pt)
      ensures var a := RouteTree.WalkAdd(t, pt); Rep(r, a.tree) && Objs(a.tree) <= Objs(t) + Objs(pt)
      ensures queue == old(queue) && freelist == old(freelist)
      decreases pt, 0
    {
      var l, rt := p.left, p.right;
      ghost var a := RouteTree.AddNode(t, pt.(left := Nil, right := Nil));
      ghost var b := WalkTail(a, pt.left);
      r := WalkAddTop(root, t, p, pt);
      r := WalkAddSides(r, a, l, pt.left, rt, pt.right);
    }

    /** The two recursive calls of walkadd. */
    method WalkAddSides(root: Route, ghost a: Added, l: Route?, ghost lt: Tree, rt: Route?, ghost rtt: Tree)
        returns (r: Route)
      requires a.tree.Node? && Rep(root, a.tree) && Rep(l, lt) && Rep(rt, rtt)
      requires Objs(a.tree) !! Objs(lt) && Objs(a.tree) !! Objs(rtt) && Objs(lt) !! Objs(rtt)
      requires WalkTail(a, lt).queued == [] && WalkTail(a, lt).freed == []
      requires var c := WalkTail(WalkTail(a, lt), rtt); c.queued == [] && c.freed == []
      modifies this`queue, this`freelist
      modifies Objs(a.tree), Objs(lt), Objs(rtt)
      ensures var c := WalkTail(WalkTail(a, lt), rtt);
        Rep(r, c.tree) && Objs(c.tree) <= Objs(a.tree) + Objs(lt) + Objs(rtt)
      ensures queue == old(queue) && freelist == old(freelist)
      decreases if lt < rtt then rtt else lt, 2
    {
      ghost var u := Objs(rtt);
      assert allocated(u) && u !! Objs(a.tree) + Objs(lt);
      r := WalkAddSlot(root, a, l, lt);
      assert unchanged(u);
      r := WalkAddSlot(r, WalkTail(a, lt), rt, rtt);
    }

    /** Cut the top node of p loose and insert it. */
    method WalkAddTop(root: Route?, ghost t: Tree, p: Route, ghost pt: Tree) returns (r: Route)
      requires Rep(root, t) && Rep(p, pt) && pt.Node? && Objs(t) !! Objs(pt)
      requires var a := RouteTree.AddNode(t, pt.(left := Nil, right := Nil)); a.queued == [] && a.freed == []
      modifies this`queue, this`freelist
      modifies Objs(t), Objs(pt.mid), p
      ensures var a := RouteTree.AddNode(t, pt.(left := Nil, right := Nil));
        && Rep(r, a.tree) && Objs(a.tree) <= Objs(t) + {p} + Objs(pt.mid)
      ensures Rep(old(p.left), pt.left) && Rep(old(p.right), pt.right)
      ensures queue == old(queue) && freelist == old(freelist)
    {
      ghost var n := pt.(left := Nil, right := Nil);
      ghost var u := Objs(pt.left) + Objs(pt.right);
      assert allocated(Objs(pt.left)) && allocated(Objs(pt.right));
      assert allocated(Objs(t)) && allocated(u);
      CutLoose(p, pt);
      label cut:
      r := AddNode(root, t, p, n);
      assert unchanged@cut(u);
    }

    method CutLoose(p: Route, ghost pt: Tree)
      requires Rep(p, pt) && pt.Node?
      modifies p
      ensures var n := pt.(left := Nil, right := Nil);
        Rep(p, n) && Objs(n) == {p} + Objs(pt.mid) && {p} + Objs(pt.mid) !! Objs(pt.left) + Objs(pt.right)
      ensures Rep(old(p.left), pt.left) && Rep(old(p.right), pt.right)
    {
      assert allocated(Objs(pt.left)) && allocated(Objs(pt.right)) && allocated(Objs(pt.mid));
      p.left := null;
      p.right := null;
    }

    method WalkAddSlot(root: Route, ghost a: Added, p: Route?, ghost pt: Tree) returns (r: Route)
      requires a.tree.Node? && Rep(root, a.tree) && Rep(p, pt) && Objs(a.tree) !! Objs(pt)
      requires WalkTail(a, pt).queued == [] && WalkTail(a, pt).freed == []
      modifies this`queue, this`freelist
      modifies Objs(a.tree), Objs(pt)
      ensures var b := WalkTail(a, pt); Rep(r, b.tree) && Objs(b.tree) <= Objs(a.tree) + Objs(pt)
      ensures queue == old(queue) && freelist == old(freelist)
      decreases pt, 1
    {
      r := root;
      if p != null {
        r := WalkAdd(root, a.tree, p, pt);
      }
    }

    /** The loop that empties the reinsertion queue into the tree. */
    method DrainQueue(root: Route?, ghost t: Tree, ghost q: seq<Tree>, ghost lo: int, ghost hi: int) returns (r: Route?)
      requires Rep(root, t) && RepQueue(queue, q) && QueueObjs(q) !! Objs(t) && Drainable(t, q, lo, hi)
      modifies this`queue, this`freelist
      modifies Objs(t), QueueObjs(q)
      ensures var d := Drain(t, q, lo, hi); Rep(r, d) && Objs(d) <= Objs(t) + QueueObjs(q)
      ensures queue == [] && freelist == old(freelist)
    {
      r := root;
      ghost var t', q' := t, q;
      while queue != []
        invariant Drainable(t', q', lo, hi) && Drain(t', q', lo, hi) == Drain(t, q, lo, hi)
        invariant Rep(r, t') && RepQueue(queue, q') && QueueObjs(q') !! Objs(t')
        invariant Objs(t') <= Objs(t) + QueueObjs(q) && QueueObjs(q') <= QueueObjs(q)
        invariant freelist == old(freelist)
        decreases |q'|
      {
        DrainStep(t', q', lo, hi);
        r := DrainOne(r, t', q');
        t', q' := RouteTree.WalkAdd(t', q'[0]).tree, q'[1..];
      }
    }

    /** Take one subtree off the queue and put it back below root. */
    method DrainOne(root: Route?, ghost t: Tree, ghost q: seq<Tree>) returns (r: Route)
      requires Rep(root, t) && RepQueue(queue, q) && QueueObjs(q) !! Objs(t) && q != [] && q[0].Node?
      requires var a := RouteTree.WalkAdd(t, q[0]); a.queued == [] && a.freed == []
      modifies this`queue, this`freelist
      modifies Objs(t), Objs(q[0])
      ensures var t' := RouteTree.WalkAdd(t, q[0]).tree;
        && Rep(r, t') && RepQueue(queue, q[1..]) && QueueObjs(q[1..]) !! Objs(t')
        && Objs(t') <= Objs(t) + Objs(q[0]) && QueueObjs(q) == Objs(q[0]) + QueueObjs(q[1..])
      ensures freelist == old(freelist)
    {
      var p := queue[0];
      ghost var u := QueueObjs(q[1..]);
      assert allocated(u) && u !! Objs(t) + Objs(q[0]);
      queue := queue[1..];
      r := WalkAdd(root, t, p, q[0]);
      assert unchanged(u);
    }

    /** looknode and the reference count step of v4delroute below slot p. */
    method DelNode(p: Route?, ghost t: Tree, x: Range) returns (r: Route?)
      requires Rep(p, t) && queue == []
      modifies this`queue, this`freelist
      modifies Objs(t)
      ensures var d := RouteTree.DelNode(t, x); Released(r, d, t) && freelist == d.freed + old(freelist)
      decreases t, 1
    {
      r := p;
      if p == null {
        return;
      }
      var o := Compare(x, p.v.range);
      if o == Contains {
      } else if o == Equals {
        r := DropRef(p, t);
      } else {
        Detach(p, t, SideOf(o));
        DelBelow(p, t, SideOf(o), x);
      }
    }

    /** One reference less; the last one unhooks the node. */
    method DropRef(p: Route, ghost t: Tree) returns (r: Route?)
      requires Rep(p, t) && t.Node? && queue == []
      modifies this`queue, this`freelist, p
      ensures var d := if t.v.ref - 1 == 0
                       then Added(Nil, Queueable(t.right) + Queueable(t.mid) + Queueable(t.left), [p])
                       else Added(t.(v := t.v.(ref := t.v.ref - 1)), [], []);
        Released(r, d, t) && freelist == d.freed + old(freelist)
    {
      r := p;
      LowerRef(p, t);
      if p.v.ref == 0 {
        r := Unhook(p, t);
      }
    }

    method LowerRef(p: Route, ghost t: Tree)
      requires Rep(p, t) && t.Node?
      modifies p
      ensures Rep(p, t.(v := t.v.(ref := t.v.ref - 1)))
    {
      p.v := p.v.(ref := p.v.ref - 1);
    }

    method DelBelow(p: Route, ghost t: Tree, s: Side, x: Range)
      requires t.Node? && RepBut(p, t, s) && Rep(Slot(p, s), Child(t, s)) && Objs(Child(t, s)) !! Around(t, s)
      requires Objs(Child(t, s)) + Around(t, s) == Objs(t) && queue == []
      modifies this`queue, this`freelist
      modifies Objs(t)
      ensures var d := RouteTree.DelNode(Child(t, s), x);
        Released(p, d.(tree := Graft(t, s, d.tree)), t) && freelist == d.freed + old(freelist)
      decreases t, 0
    {
      ghost var d := RouteTree.DelNode(Child(t, s), x);
      ghost var u := Around(t, s);
      assert allocated(u);
      var c := DelNode(Slot(p, s), Child(t, s), x);
      assert unchanged(u);
      DelAttach(p, t, s, c, d);
    }

    method DelAttach(p: Route, ghost t: Tree, s: Side, c: Route?, ghost d: Added)
      requires t.Node? && RepBut(p, t, s) && Released(c, d, Child(t, s))
      requires Objs(Child(t, s)) !! Around(t, s) && Objs(Child(t, s)) + Around(t, s) == Objs(t)
      modifies p
      ensures Released(p, d.(tree := Graft(t, s, d.tree)), t)
    {
      ghost var u := QueueObjs(d.queued);
      assert allocated(u) && p !in u;
      GraftObjs(t, s, d.tree);
      PutChild(p, t, s, c, d.tree);
      assert unchanged(u);
    }

    /** What a deletion leaves in memory. */
    ghost predicate Released(r: Route?, d: Added, t: Tree)
      reads this`queue, Objs(d.tree), QueueObjs(d.queued)
    {
      && Rep(r, d.tree) && RepQueue(queue, d.queued)
      && Objs(d.tree) + QueueObjs(d.queued) <= Objs(t) && QueueObjs(d.queued) !! Objs(d.tree)
      && (forall f :: f in d.freed ==> f in Objs(t) && f !in Objs(d.tree) && f !in QueueObjs(d.queued))
    }

    /** The emptied slot's children go on the queue, the node on the free list. */
    method Unhook(p: Route, ghost t: Tree) returns (r: Route?)
      requires t.Node? && p == t.id && Rep(p.left, t.left) && Rep(p.mid, t.mid) && Rep(p.right, t.right)
      requires p !in Objs(t.left) + Objs(t.mid) + Objs(t.right) && queue == []
      requires Objs(t.left) !! Objs(t.mid) && Objs(t.left) !! Objs(t.right) && Objs(t.mid) !! Objs(t.right)
      modifies this`queue, this`freelist, p
      ensures r == null && freelist == [p] + old(freelist)
      ensures Released(r, Added(Nil, Queueable(t.right) + Queueable(t.mid) + Queueable(t.left), [p]), t)
    {
      QueueThree(p, t);
      FreeUnqueued(p, Queueable(t.right) + Queueable(t.mid) + Queueable(t.left));
      r := null;
    }

    method FreeUnqueued(p: Route, ghost q: seq<Tree>)
      requires RepQueue(queue, q) && p !in QueueObjs(q)
      modifies this`freelist, p`left, p`right
      ensures RepQueue(queue, q) && freelist == [p] + old(freelist)
    {
      ghost var u := QueueObjs(q);
      assert allocated(u);
      FreeRoute(p);
      assert unchanged(u);
    }

    method QueueThree(p: Route, ghost t: Tree)
      requires t.Node? && Rep(p.left, t.left) && Rep(p.mid, t.mid) && Rep(p.right, t.right) && queue == []
      requires Objs(t.left) !! Objs(t.mid) && Objs(t.left) !! Objs(t.right) && Objs(t.mid) !! Objs(t.right)
      modifies this`queue
      ensures var q := Queueable(t.right) + Queueable(t.mid) + Queueable(t.left);
        RepQueue(queue, q) && QueueObjs(q) == Objs(t.left) + Objs(t.mid) + Objs(t.right)
    {
      assert allocated(Objs(t.left)) && allocated(Objs(t.mid)) && allocated(Objs(t.right));
      AddQueue(p.left, t.left, []);
      AddQueue(p.mid, t.mid, Queueable(t.left) + []);
      AddQueue(p.right, t.right, Queueable(t.mid) + (Queueable(t.left) + []));
      Reassociate(Queueable(t.right), Queueable(t.mid), Queueable(t.left));
    }

    /** addqueue. */
    method AddQueue(r: Route?, ghost t: Tree, ghost q: seq<Tree>)
      requires Rep(r, t) && RepQueue(queue, q) && Objs(t) !! QueueObjs(q)
      modifies this`queue
      ensures RepQueue(queue, Queueable(t) + q) && QueueObjs(Queueable(t) + q) == Objs(t) + QueueObjs(q)
    {
      if r != null {
        queue := [r] + queue;
        assert ([t] + q)[1..] == q;
      } else {
        assert [] + q == q;
      }
    }

    /** allocroute: a cleared node, off the free list if there is one. */
    method AllocRoute(rtype: bv8) returns (r: Route)
      requires Linked()
      modifies this`freelist, this`nodes, nodes
      ensures Linked() && r in nodes && fresh(nodes - old(nodes)) && old(nodes) <= nodes
      ensures r !in freelist && Unused(r, trees)
      ensures Rep(r, Leaf(r, Entry(Range(0, 0), rtype, 0, 1))) && r.ifc == null && r.ifcid == 0
    {
      if freelist != [] {
        r := ReuseRoute(Entry(Range(0, 0), rtype, 0, 1));
      } else {
        r := new Route(Entry(Range(0, 0), rtype, 0, 1));
        assert forall h :: 0 <= h < NBUCKETS ==> Objs(trees[h]) <= nodes;
        nodes := nodes + {r};
      }
    }

    /** A node off the free list, cleared. */
    method ReuseRoute(e: Entry) returns (r: Route)
      requires Linked() && freelist != []
      modifies this`freelist, nodes
      ensures Linked() && r in nodes && r !in freelist && Unused(r, trees) && Rep(r, Leaf(r, e))
      ensures r.ifc == null && r.ifcid == 0
    {
      r := freelist[0];
      assert Unused(r, trees) && forall h :: 0 <= h < NBUCKETS ==> Objs(trees[h]) <= nodes;
      FreeTail(freelist, trees, nodes);
      freelist := freelist[1..];
      Clear(r, e);
    }

    method Clear(r: Route, e: Entry)
      modifies r
      ensures Rep(r, Leaf(r, e)) && r.ifc == null && r.ifcid == 0
    {
      r.left, r.mid, r.right, r.v, r.depth, r.ifc, r.ifcid := null, null, null, e, 0, null, 0;
    }

    /** Insert one node below root and empty the queue. */
    method Insert(root: Route?, ghost t: Tree, p: Route) returns (r: Route?)
      requires Rep(root, t) && Rep(p, Leaf(p, p.v)) && p !in Objs(t) && queue == []
      requires Ready(t, p.v.range, 0, ADDRESSES - 1)
      modifies this`queue, this`freelist
      modifies Objs(t), p
      ensures var d := AddRoute(t, p, old(p.v), 0, ADDRESSES - 1);
        && Rep(r, d) && Objs(d) <= Objs(t) + {p}
        && (freelist == old(freelist) || (freelist == [p] + old(freelist) && p !in Objs(d)))
      ensures queue == []
    {
      ghost var n := Leaf(p, p.v);
      ghost var a := RouteTree.AddNode(t, n);
      AddDrainable(t, p, p.v, 0, ADDRESSES - 1);
      AddFreesWhenPresent(t, n);
      r := AddNode(root, t, p, n);
      assert Roots(a.queued) + [] == Roots(a.queued);
      r := DrainQueue(r, a.tree, a.queued, 0, ADDRESSES - 1);
    }

    /** Remove one reference below root and empty the queue. */
    method Delete(root: Route?, ghost t: Tree, x: Range) returns (r: Route?)
      requires Rep(root, t) && queue == [] && Wf(t, 0, ADDRESSES - 1)
      modifies this`queue, this`freelist
      modifies Objs(t)
      ensures var d := DelRoute(t, x, 0, ADDRESSES - 1);
        && Rep(r, d) && Objs(d) <= Objs(t)
        && (freelist == old(freelist)
            || (freelist != [] && freelist[1..] == old(freelist) && freelist[0] in Objs(t) && freelist[0] !in Objs(d)))
      ensures queue == []
    {
      ghost var d := RouteTree.DelNode(t, x);
      DelDrainable(t, x, 0, ADDRESSES - 1);
      DelFreesOne(t, x);
      r := DelNode(root, t, x);
      OneFreed(d.freed, freelist, old(freelist));
      r := DrainQueue(r, d.tree, d.queued, 0, ADDRESSES - 1);
    }

    /** A node that is ready to be inserted for route e. */
    method NewRoute(e: Entry) returns (r: Route)
      requires Linked() && e.ref == 1
      modifies this`freelist, this`nodes, nodes
      ensures Linked() && r in nodes && fresh(nodes - old(nodes)) && old(nodes) <= nodes
      ensures r !in freelist && Unused(r, trees) && Rep(r, Leaf(r, e))
    {
      r := AllocRoute(e.rtype);
      assert forall h :: 0 <= h < NBUCKETS ==> Objs(trees[h]) <= nodes;
      r.v := e;
    }

    /** One bucket's share of v4addroute. */
    method AddToBucket(h: nat, e: Entry) returns (ghost id: Route)
      requires Linked() && h < NBUCKETS && e.ref == 1 && Ready(trees[h], e.range, 0, ADDRESSES - 1)
      modifies this`queue, this`freelist, this`nodes, this`trees, v4root, nodes
      ensures Linked() && fresh(nodes - old(nodes)) && old(nodes) <= nodes
      ensures trees == old(trees)[h := AddRoute(old(trees)[h], id, e, 0, ADDRESSES - 1)]
    {
      var p := NewRoute(e);
      id := p;
      ghost var t, was := trees[h], freelist;
      var r := InsertBelow(h, p);
      ghost var d := AddRoute(t, p, e, 0, ADDRESSES - 1);
      BucketChange(was, freelist, trees, nodes, h, d, {p});
      SetBucket(h, r, d);
    }

    /** Insert below root h, with the other trees untouched. */
    method InsertBelow(h: nat, p: Route) returns (r: Route?)
      requires Forest(v4root, trees, nodes) && queue == [] && h < NBUCKETS && Rep(p, Leaf(p, p.v)) && Unused(p, trees)
      requires Ready(trees[h], p.v.range, 0, ADDRESSES - 1)
      modifies this`queue, this`freelist, Objs(trees[h]), p
      ensures var d := AddRoute(trees[h], p, old(p.v), 0, ADDRESSES - 1);
        && Rep(r, d) && Objs(d) <= Objs(trees[h]) + {p}
        && (freelist == old(freelist) || (freelist == [p] + old(freelist) && p !in Objs(d)))
      ensures queue == [] && forall k :: 0 <= k < NBUCKETS && k != h ==> Rep(v4root[k], trees[k])
    {
      r := Insert(v4root[h], trees[h], p);
    }

    /** One bucket's share of v4delroute. */
    method DelFromBucket(h: nat, x: Range)
      requires Linked() && h < NBUCKETS && Wf(trees[h], 0, ADDRESSES - 1)
      modifies this`queue, this`freelist, this`trees, v4root, nodes
      ensures Linked() && trees == old(trees)[h := DelRoute(old(trees)[h], x, 0, ADDRESSES - 1)]
    {
      ghost var t, was := trees[h], freelist;
      var r := Delete(v4root[h], t, x);
      ghost var d := DelRoute(t, x, 0, ADDRESSES - 1);
      BucketChange(was, freelist, trees, nodes, h, d, {});
      SetBucket(h, r, d);
    }

    /** Store the new root of bucket h. */
    method SetBucket(h: nat, r: Route?, ghost d: Tree)
      requires v4root.Length == NBUCKETS == |trees| && queue == [] && h < NBUCKETS
      requires forall k :: 0 <= k < NBUCKETS && k != h ==> Objs(trees[k]) <= nodes && Rep(v4root[k], trees[k])
      requires Rep(r, d) && Objs(d) <= nodes
      requires Separate(trees[h := d]) && FreeOk(freelist, trees[h := d], nodes)
      modifies this`trees, v4root
      ensures Linked() && trees == old(trees)[h := d]
    {
      v4root[h] := r;
      trees := trees[h := d];
    }

    /** Bucket h catches up with the table that has e added. */
    method AddOne(h: nat, e: Entry, ghost lo: nat)
      requires Linked() && Partly(trees, table, TableAdd(table, e), lo, h) && lo <= h < NBUCKETS
      requires AllPrefixes(table) && IsPrefix(e.range) && InBucket(e.range, h) && e.ref == 1
      modifies this`queue, this`freelist, this`nodes, this`trees, v4root, nodes
      ensures Linked() && Partly(trees, table, TableAdd(table, e), lo, h + 1)
      ensures fresh(nodes - old(nodes)) && old(nodes) <= nodes
    {
      ghost var before := trees;
      PartlyReady(before, table, TableAdd(table, e), lo, h, e.range);
      ghost var id := AddToBucket(h, e);
      PartlyAdd(before, table, lo, h, id, e);
    }

    /** Bucket h catches up with the table that has one reference to x dropped. */
    method DelOne(h: nat, x: Range, ghost lo: nat)
      requires Linked() && Partly(trees, table, TableDel(table, x), lo, h) && lo <= h < NBUCKETS && InBucket(x, h)
      modifies this`queue, this`freelist, this`trees, v4root, nodes
      ensures Linked() && Partly(trees, table, TableDel(table, x), lo, h + 1)
    {
      ghost var before := trees;
      DelFromBucket(h, x);
      PartlyDel(before, table, lo, h, x);
    }

    /** v4addroute. */
    method V4AddRoute(a: nat, len: nat, gate: nat, rtype: bv8)
      requires Valid() && a < ADDRESSES && len <= 32
      modifies this, v4root, nodes
      ensures Valid() && fresh(nodes - old(nodes)) && convs == old(convs)
      ensures var e := NewEntry(a, len, gate, rtype);
        history == old(history) + [Add(e)] && table == TableAdd(old(table), e) && Requested(e, a, len, gate, rtype)
      ensures generation == old(generation) + 1
    {
      var e := NewEntry(a, len, gate, rtype);
      PrefixOfAddress(a, len);
      var lo, hi := Hash(e.range.lo), Hash(e.range.hi);
      BucketsCoverRange(e.range, e.range.lo);
      ghost var now := TableAdd(table, e);
      var h := lo;
      while h <= hi
        invariant lo <= h <= hi + 1 && Linked() && fresh(nodes - old(nodes))
        invariant Partly(trees, table, now, lo, h)
        invariant table == old(table) && history == old(history)
        invariant convs == old(convs) && generation == old(generation)
      {
        AddOne(h, e, lo);
        h := h + 1;
      }
      Finish(Add(e));
    }

    /** v4delroute. */
    method V4DelRoute(a: nat, len: nat)
      requires Valid() && a < ADDRESSES && len <= 32
      modifies this, v4root, nodes
      ensures Valid() && fresh(nodes - old(nodes)) && convs == old(convs)
      ensures var x := PrefixRange(a, len);
        history == old(history) + [Command.Delete(x)] && table == TableDel(old(table), x) && Masked(x, a, len)
      ensures generation == old(generation) + 1
    {
      var x := PrefixRange(a, len);
      PrefixOfAddress(a, len);
      var lo, hi := Hash(x.lo), Hash(x.hi);
      BucketsCoverRange(x, x.lo);
      ghost var now := TableDel(table, x);
      var h := lo;
      while h <= hi
        invariant lo <= h <= hi + 1 && Linked() && fresh(nodes - old(nodes))
        invariant Partly(trees, table, now, lo, h)
        invariant table == old(table) && history == old(history)
        invariant convs == old(convs) && generation == old(generation)
      {
        DelOne(h, x, lo);
        h := h + 1;
      }
      Finish(Command.Delete(x));
    }

    /** The forest already holds the table now. */
    ghost method Record(c: Command, now: Table)
      requires Linked() && Refines(trees, now) && now == ApplyAll(map[], history + [c]) && AllCoherent()
      requires Single(history + [c])
      modifies this`table, this`history
      ensures Valid() && table == now && history == old(history) + [c]
    {
      table := now;
      history := history + [c];
    }

    /** In a new generation no cached route is reused. */
    method Advance()
      requires |trees| == NBUCKETS && forall d :: d in convs ==> d.rgen <= generation
      modifies this`generation
      ensures generation == old(generation) + 1 && AllCoherent()
    {
      generation := generation + 1;
    }

    /** The last step of both: the generation moves on. */
    method Finish(ghost c: Command)
      requires Linked() && table == ApplyAll(map[], history) && AllPrefixes(table) && IsPrefix(Target(c))
      requires Partly(trees, table, Apply(table, c), Hash(Target(c).lo), Hash(Target(c).hi) + 1)
      requires (forall d :: d in convs ==> d.rgen <= generation) && Single(history + [c])
      modifies this`generation, this`table, this`history
      ensures Valid() && table == Apply(old(table), c)
      ensures history == old(history) + [c] && generation == old(generation) + 1
    {
      ApplyAllSnoc(history, c);
      PartlyDone(trees, table, c);
      Advance();
      Record(c, Apply(table, c));
    }

    /** v4lookup; `ifcs` is what the interface search would find for an
        address and a type. */
    method V4Lookup(a: nat, c: Conv?, ifcs: map<(nat, bv8), Ipifc>) returns (q: Route?)
      requires Valid() && a < ADDRESSES
      requires c != null ==> c in convs && convs[c] == a
      modifies nodes, if c == null then {} else {c}
      ensures Valid()
      ensures Found(a).Nil? <==> NoMatch(table, a)
      ensures Found(a).Node? ==>
                LongestMatch(table, a, Found(a).v.range) && table[Found(a).v.range] == InfoOf(Found(a).v)
      ensures q != null ==> Found(a).Node? && q == Found(a).id && q.v == Found(a).v
      ensures q == null ==> Found(a).Nil? || ToAsk(Found(a).v) !in ifcs
      ensures q != null ==> SetBy(history, Setter(history, q.v.range), q.v.range, q.v.rtype, q.v.gate)
      ensures q != null ==> q in old(nodes)
      ensures q != null && !old(Kept(c)) ==>
                && q.ifc != null && q.ifcid == q.ifc.ifcid
                && (old(Bound(q)) ==> q.ifc == old(q.ifc))
                && (!old(Bound(q)) ==>
                      ToAsk(q.v) in ifcs && q.ifc == ifcs[ToAsk(q.v)])
      ensures q != null && old(Kept(c)) ==> q == old(c.r) && q.ifc == old(q.ifc) != null
      ensures c != null && (q != null || Found(a).Nil?) ==> c.r == q && c.rgen == generation
    {
      q := Fetch(a, c, ifcs);
      LookupIsLongestMatch(trees, table, a);
      if q != null {
        RouteSource(history, q.v.range);
      }
    }

    /** An interface is looked for by its own address, a gateway's by the gateway's. */
    ghost function ToAsk(e: Entry): (nat, bv8) {
      (if e.rtype & RIFC == 0 then e.gate else e.range.lo, e.rtype)
    }

    /** The route the conversation used last is good still. */
    predicate Kept(c: Conv?)
      reads this`generation, c, if c == null then null else c.r
    {
      c != null && c.r != null && c.r.ifc != null && c.rgen == generation
    }

    /** The node remembers an interface that has not been rebound. */
    predicate Bound(q: Route)
      reads q, q.ifc
    {
      q.ifc != null && q.ifcid == q.ifc.ifcid
    }

    /** Its body: the cached route, or the one a walk finds. */
    method Fetch(a: nat, c: Conv?, ifcs: map<(nat, bv8), Ipifc>) returns (q: Route?)
      requires Valid() && a < ADDRESSES
      requires c != null ==> c in convs && convs[c] == a
      modifies nodes, if c == null then {} else {c}
      ensures Valid()
      ensures q != null ==> Found(a).Node? && q == Found(a).id && q.v == Found(a).v
      ensures q != null ==> q in old(nodes)
      ensures q != null && !old(Kept(c)) ==>
                && Bound(q) && (old(Bound(q)) ==> q.ifc == old(q.ifc))
                && (!old(Bound(q)) ==> ToAsk(q.v) in ifcs && q.ifc == ifcs[ToAsk(q.v)])
      ensures q != null && old(Kept(c)) ==> q == old(c.r) && q.ifc == old(q.ifc) != null
      ensures q == null ==> Found(a).Nil? || ToAsk(Found(a).v) !in ifcs
      ensures c != null && (q != null || Found(a).Nil?) ==> c.r == q && c.rgen == generation
    {
      if c != null && c.r != null && c.r.ifc != null && c.rgen == generation {
        KeptIsFound(a, c);
        return c.r;
      }
      q := Renew(a, c, ifcs);
    }

    /** The route a walk finds, which the conversation keeps. */
    method Renew(a: nat, c: Conv?, ifcs: map<(nat, bv8), Ipifc>) returns (q: Route?)
      requires Valid() && a < ADDRESSES
      requires c != null ==> c in convs && convs[c] == a
      modifies nodes, if c == null then {} else {c}
      ensures Valid()
      ensures q != null ==> Found(a).Node? && q == Found(a).id && q.v == Found(a).v && q in old(nodes)
      ensures q != null ==>
                && Bound(q) && (old(Bound(q)) ==> q.ifc == old(q.ifc))
                && (!old(Bound(q)) ==> ToAsk(q.v) in ifcs && q.ifc == ifcs[ToAsk(q.v)])
      ensures q == null ==> Found(a).Nil? || ToAsk(Found(a).v) !in ifcs
      ensures c != null && (q != null || Found(a).Nil?) ==> c.r == q && c.rgen == generation
    {
      var ok;
      ok, q := Seek(a, ifcs);
      if ok && c != null {
        Remember(c, q);
      }
    }

    /** The cached route is the one a walk would find. */
    lemma KeptIsFound(a: nat, c: Conv)
      requires Valid() && c in convs && convs[c] == a && Kept(c)
      ensures Found(a).Node? && c.r == Found(a).id && c.r in nodes && c.r.v == Found(a).v
    {
      assert Coherent(c, a);
      WalkInTree(trees[Hash(a)], v4root[Hash(a)], a, Nil);
    }

    /** The walk, and the interface of what it finds. */
    method Seek(a: nat, ifcs: map<(nat, bv8), Ipifc>) returns (ok: bool, q: Route?)
      requires Valid() && a < ADDRESSES
      modifies nodes
      ensures Valid() && (q != null ==> q in nodes)
      ensures if ok then q == RootOf(Found(a)) else q == null && Found(a).Node? && ToAsk(Found(a).v) !in ifcs
      ensures q != null ==>
                && q.v == Found(a).v && Bound(q) && (old(Bound(q)) ==> q.ifc == old(q.ifc))
                && (!old(Bound(q)) ==> ToAsk(q.v) in ifcs && q.ifc == ifcs[ToAsk(q.v)])
    {
      q := WalkDown(v4root[Hash(a)], trees[Hash(a)], a);
      if q != null && (q.ifc == null || q.ifcid != q.ifc.ifcid) {
        var gate := if q.v.rtype & RIFC != 0 then q.v.range.lo else q.v.gate;
        if (gate, q.v.rtype) !in ifcs {
          return false, null;
        }
        Resolve(q, ifcs[(gate, q.v.rtype)]);
      }
      ok := true;
    }

    /** The conversation keeps the route for this generation. */
    method Remember(c: Conv, q: Route?)
      requires Valid() && c in convs && q == RootOf(Found(convs[c]))
      modifies c
      ensures Valid() && c.r == q && c.rgen == generation
    {
      assert Linked() && Refines(trees, table);
      c.r, c.rgen := q, generation;
    }

    /** The downward walk. */
    method WalkDown(root: Route?, ghost t: Tree, a: nat) returns (q: Route?)
      requires Rep(root, t)
      ensures q == RootOf(Walk(t, a, Nil)) && (q != null ==> q in Objs(t) && q.v == Walk(t, a, Nil).v)
    {
      var p := root;
      ghost var pt, qt := t, Nil;
      q := null;
      while p != null
        invariant Rep(p, pt) && Objs(pt) <= Objs(t) && Walk(pt, a, qt) == Walk(t, a, Nil)
        invariant q == RootOf(qt) && (q != null ==> q in Objs(t) && q.v == qt.v)
        decreases pt
      {
        if a >= p.v.range.lo {
          if a <= p.v.range.hi {
            q, p, qt, pt := p, p.mid, pt, pt.mid;
          } else {
            p, pt := p.right, pt.right;
          }
        } else {
          p, pt := p.left, pt.left;
        }
      }
    }

    /** Remember the interface in the node. */
    method Resolve(q: Route, found: Ipifc)
      requires Valid() && q in nodes
      modifies q`ifc, q`ifcid
      ensures Valid() && q.ifc == found && q.ifcid == found.ifcid
    {
      forall h | 0 <= h < NBUCKETS ensures v4root[h] == RootOf(trees[h]) && Unshared(trees[h]) && Links(trees[h]) {
        RepIsLinks(v4root[h], trees[h]);
      }
      q.ifc, q.ifcid := found, found.ifcid;
      forall h | 0 <= h < NBUCKETS ensures Rep(v4root[h], trees[h]) {
        RepIsLinks(v4root[h], trees[h]);
      }
      assert Linked() && AllCoherent() && Refines(trees, table);
    }

    /** freeroute: onto the front of the free list. */
    method FreeRoute(r: Route)
      modifies this`freelist, r`left, r`right
      ensures freelist == [r] + old(freelist)
    {
      r.left := null;
      r.right := null;
      freelist := [r] + freelist;
    }
  }
}
