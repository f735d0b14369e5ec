/** Prefixes, the bucket hash and the 1024-bucket forest seen as one table. */
module RouteTable {
  import opened RouteRange
  import opened RouteTree

  const NBUCKETS := 1024
  const ADDRESSES := 0x1_0000_0000

  function Pow2(n: nat): (p: nat)
    ensures p > 0
  {
    if n == 0 then 1 else 2 * Pow2(n - 1)
  }

  /** Block number k among the blocks of size b. */
  function Block(k: nat, b: nat): Range
    requires b > 0
  {
    Range(k * b, k * b + b - 1)
  }

  /** The block of size b that address a falls in. */
  function BlockAt(a: nat, b: nat): Range
    requires b > 0
  {
    Block(a / b, b)
  }

  /** The addresses covered by a with a contiguous mask of len ones. */
  function PrefixRange(a: nat, len: nat): Range
    requires len <= 32
  {
    BlockAt(a, Pow2(32 - len))
  }

  /** An aligned block whose size is a power of two. */
  ghost predicate IsPrefix(r: Range) {
    exists k: nat, len: nat :: IsNetwork(r, k, len)
  }

  ghost predicate IsNetwork(r: Range, k: nat, len: nat) {
    len <= 32 && k < Pow2(len) && r == Block(k, Pow2(32 - len))
  }

  /** V4H: bits 17 to 26 of the address. */
  function Hash(a: nat): (h: nat)
    ensures h < NBUCKETS
  {
    a % 0x800_0000 / 0x2_0000
  }

  lemma {:induction false} Pow2Factor(m: nat, n: nat)
    requires m <= n
    ensures Pow2(n) == Pow2(m) * Pow2(n - m)
  {
    if m > 0 {
      Pow2Factor(m - 1, n - 1);
      assert 2 * (Pow2(m - 1) * Pow2(n - m)) == (2 * Pow2(m - 1)) * Pow2(n - m);
    }
  }

  lemma Pow2Values()
    ensures Pow2(27) == 0x800_0000 && Pow2(32) == ADDRESSES
  {
    assert Pow2(10) == 1024;
    Pow2Factor(10, 20);
    Pow2Factor(7, 27);
    assert Pow2(7) == 128;
    Pow2Factor(5, 32);
    assert Pow2(5) == 32;
  }

  lemma DivBlock(k: nat, c: nat, q: nat)
    requires c > 0 && q == k / c
    ensures q * c <= k < q * c + c
  {}

  lemma Scale(x: int, y: int, b: nat)
    requires x <= y
    ensures x * b <= y * b
  {}

  /** x whole blocks end where block y begins, or before. */
  lemma ScaleNext(x: nat, y: nat, b: nat)
    requires x + 1 <= y
    ensures x * b + b <= y * b
  {
    Scale(x + 1, y, b);
    assert (x + 1) * b == x * b + b;
  }

  lemma Regroup(j: nat, b: nat, c: nat)
    ensures j * (b * c) == (j * c) * b && (j * c + c) * b == j * (b * c) + b * c
  {}

  /** Aligned blocks of sizes b and b * c are nested or disjoint. */
  lemma BlocksNested(k: nat, b: nat, j: nat, c: nat)
    requires b > 0 && c > 0 && b * c > 0
    ensures Laminar(Block(k, b), Block(j, b * c))
  {
    var m := j * c;
    Regroup(j, b, c);
    if k < m {
      ScaleNext(k, m, b);
    } else if m + c <= k {
      Scale(m + c, k, b);
    } else {
      Scale(m, k, b);
      ScaleNext(k, m + c, b);
    }
  }

  /** Contiguous masks only ever give nested or disjoint ranges. */
  lemma PrefixesLaminar(x: Range, y: Range)
    requires IsPrefix(x) && IsPrefix(y)
    ensures Laminar(x, y)
  {
    var k: nat, m: nat :| IsNetwork(x, k, m);
    var j: nat, n: nat :| IsNetwork(y, j, n);
    if m >= n {
      Pow2Factor(32 - m, 32 - n);
      assert Pow2(32 - m) * Pow2(m - n) == Pow2(32 - n);
      BlocksNested(k, Pow2(32 - m), j, Pow2(m - n));
    } else {
      Pow2Factor(32 - n, 32 - m);
      assert Pow2(32 - n) * Pow2(n - m) == Pow2(32 - m);
      BlocksNested(j, Pow2(32 - n), k, Pow2(n - m));
    }
  }

  /** r is the aligned block of 2^(32-len) addresses that contains a. */
  ghost predicate Masked(r: Range, a: nat, len: nat) {
    len <= 32 && r.lo <= a <= r.hi && r.hi - r.lo + 1 == Pow2(32 - len) && r.lo % Pow2(32 - len) == 0
  }

  /** Every address and mask length gives the prefix of that length that covers the
      address. */
  lemma PrefixOfAddress(a: nat, len: nat)
    requires a < ADDRESSES && len <= 32
    ensures IsPrefix(PrefixRange(a, len)) && Covers(PrefixRange(a, len), a) && Masked(PrefixRange(a, len), a, len)
  {
    Pow2Values();
    Pow2Factor(32 - len, 32);
    var k := BlockNumber(a, Pow2(32 - len), Pow2(len));
    RemainderUnique(k, Pow2(32 - len), 0);
    assert IsNetwork(PrefixRange(a, len), k, len);
  }

  lemma BlockNumber(a: nat, b: nat, c: nat) returns (k: nat)
    requires b > 0 && a < b * c
    ensures k < c && BlockAt(a, b) == Block(k, b) && Covers(Block(k, b), a)
  {
    k := a / b;
    DivBlock(a, b, k);
    if c <= k {
      Scale(c, k, b);
    }
  }

  lemma PrefixBounds(r: Range)
    requires IsPrefix(r)
    ensures r.lo <= r.hi < ADDRESSES
  {
    var k: nat, n: nat :| IsNetwork(r, k, n);
    Pow2Values();
    Pow2Factor(32 - n, 32);
    LastBlock(k, Pow2(32 - n), Pow2(n));
  }

  lemma LastBlock(k: nat, b: nat, c: nat)
    requires k < c && b > 0
    ensures k * b + b <= b * c
  {
    Scale(k + 1, c, b);
  }

  /** Inside one block of a size dividing m, the remainder modulo m keeps order. */
  lemma RemainderInBlock(k: nat, b: nat, c: nat, d: nat)
    requires b > 0 && c > 0 && d < b
    ensures (k * b + d) % (b * c) == (k % c) * b + d
  {
    var q, r := k / c, k % c;
    assert k == c * q + r;
    assert k * b + d == q * (b * c) + (r * b + d) by {
      assert (c * q + r) * b == (c * q) * b + r * b;
      assert (c * q) * b == q * (b * c);
    }
    assert r * b + d < b * c by {
      assert (r + 1) * b <= c * b;
    }
    RemainderUnique(q, b * c, r * b + d);
  }

  lemma RemainderUnique(q: nat, m: nat, r: nat)
    requires r < m
    ensures (q * m + r) % m == r
  {
    var x := q * m + r;
    var p := x / m;
    DivBlock(x, m, p);
    if p < q {
      Scale(p + 1, q, m);
    } else if q < p {
      Scale(q + 1, p, m);
    } else {
      assert x == p * m + x % m;
    }
  }

  lemma HashMonotone(x: nat, y: nat)
    requires x % 0x800_0000 <= y % 0x800_0000
    ensures Hash(x) <= Hash(y)
  {}

  /** The buckets a prefix is entered in are exactly the buckets of its
      addresses. */
  lemma BucketsCoverRange(r: Range, a: nat)
    requires IsPrefix(r) && Covers(r, a)
    ensures Hash(r.lo) <= Hash(a) <= Hash(r.hi)
  {
    var k: nat, n: nat :| IsNetwork(r, k, n);
    Pow2Values();
    if n >= 5 {
      Pow2Factor(32 - n, 27);
      SmallBlockHash(k, Pow2(32 - n), Pow2(n - 5), r, a);
    } else {
      Pow2Factor(27, 32 - n);
      LargeBlockHash(k, Pow2(5 - n), r, a);
    }
  }

  lemma SmallBlockHash(k: nat, b: nat, c: nat, r: Range, a: nat)
    requires b > 0 && c > 0 && b * c == 0x800_0000 && r == Block(k, b) && Covers(r, a)
    ensures Hash(r.lo) <= Hash(a) <= Hash(r.hi)
  {
    RemainderInBlock(k, b, c, 0);
    RemainderInBlock(k, b, c, a - r.lo);
    RemainderInBlock(k, b, c, b - 1);
    HashMonotone(r.lo, a);
    HashMonotone(a, r.hi);
  }

  lemma LargeBlockHash(k: nat, c: nat, r: Range, a: nat)
    requires c > 0 && r == Block(k, 0x800_0000 * c)
    ensures Hash(r.lo) <= Hash(a) <= Hash(r.hi)
  {
    var m := 0x800_0000;
    RemainderUnique(k * c, m, 0);
    assert k * (m * c) == (k * c) * m;
    RemainderUnique(k * c + c - 1, m, m - 1);
    assert (k * c + c - 1) * m + (m - 1) == k * (m * c) + m * c - 1;
  }

  // ---------------------------------------------------------------- the forest

  ghost predicate InBucket(r: Range, h: int) {
    Hash(r.lo) <= h <= Hash(r.hi)
  }

  /** The routes that belong in bucket h. */
  ghost function Bucket(m: Table, h: int): Table {
    map r | r in m && InBucket(r, h) :: m[r]
  }

  ghost predicate AllPrefixes(m: Table) {
    forall r :: r in m ==> IsPrefix(r)
  }

  /** Tree t is bucket h of table m. */
  ghost predicate Holding(t: Tree, m: Table, h: int) {
    Wf(t, 0, ADDRESSES - 1) && Represents(Elems(t), Bucket(m, h))
  }

  /** Every tree of the forest holds its bucket of the one table m. */
  ghost predicate Refines(trees: seq<Tree>, m: Table) {
    && |trees| == NBUCKETS && AllPrefixes(m)
    && forall h {:trigger Holding(trees[h], m, h)} :: 0 <= h < NBUCKETS ==> Holding(trees[h], m, h)
  }

  lemma HoldingReady(t: Tree, m: Table, h: int, r: Range)
    requires Holding(t, m, h) && AllPrefixes(m) && IsPrefix(r)
    ensures Ready(t, r, 0, ADDRESSES - 1)
  {
    PrefixBounds(r);
    forall e | e in Elems(t) ensures Laminar(e.range, r) {
      PrefixesLaminar(e.range, r);
    }
    AllMeaning(t, Nested, r);
  }

  lemma BucketUpdate(m: Table, h: int, e: Entry)
    requires InBucket(e.range, h)
    ensures TableAdd(Bucket(m, h), e) == Bucket(TableAdd(m, e), h)
    ensures TableDel(Bucket(m, h), e.range) == Bucket(TableDel(m, e.range), h)
  {}

  /** Adding to a bucket that should hold the route is adding to the table. */
  lemma AddHolding(t: Tree, m: Table, h: int, id: Route, e: Entry)
    requires Holding(t, m, h) && InBucket(e.range, h) && Ready(t, e.range, 0, ADDRESSES - 1)
    ensures Holding(AddRoute(t, id, e, 0, ADDRESSES - 1), TableAdd(m, e), h)
  {
    AddRouteCorrect(t, id, e, 0, ADDRESSES - 1, Bucket(m, h));
    BucketUpdate(m, h, e);
  }

  lemma DelHolding(t: Tree, m: Table, h: int, r: Range)
    requires Holding(t, m, h) && InBucket(r, h)
    ensures Holding(DelRoute(t, r, 0, ADDRESSES - 1), TableDel(m, r), h)
  {
    DelRouteCorrect(t, r, 0, ADDRESSES - 1, Bucket(m, h));
    BucketUpdate(m, h, Entry(r, 0, 0, 0));
  }

  lemma BucketAddOther(m: Table, h: int, e: Entry)
    requires !InBucket(e.range, h)
    ensures Bucket(TableAdd(m, e), h) == Bucket(m, h)
  {}

  lemma BucketDelOther(m: Table, h: int, r: Range)
    requires !InBucket(r, h)
    ensures Bucket(TableDel(m, r), h) == Bucket(m, h)
  {}

  /** The other buckets do not see the change. */
  lemma OtherBuckets(t: Tree, m: Table, h: int, e: Entry)
    requires Holding(t, m, h) && !InBucket(e.range, h)
    ensures Holding(t, TableAdd(m, e), h) && Holding(t, TableDel(m, e.range), h)
  {
    BucketAddOther(m, h, e);
    BucketDelOther(m, h, e.range);
  }

  /** A bucket holds every route that covers one of its addresses. */
  lemma BucketMatches(m: Table, a: nat)
    requires AllPrefixes(m)
    ensures var b := Bucket(m, Hash(a));
      && (NoMatch(b, a) <==> NoMatch(m, a))
      && forall r :: LongestMatch(b, a, r) ==> LongestMatch(m, a, r) && b[r] == m[r]
  {
    forall x | x in m && Covers(x, a) ensures InBucket(x, Hash(a)) {
      BucketsCoverRange(x, a);
    }
  }

  lemma BucketLookup(t: Tree, m: Table, a: nat)
    requires Holding(t, m, Hash(a)) && AllPrefixes(m)
    ensures var w := Walk(t, a, Nil);
      && (w.Nil? <==> NoMatch(m, a))
      && (w.Node? ==> LongestMatch(m, a, w.v.range) && m[w.v.range] == InfoOf(w.v))
  {
    WalkIsLongestMatch(t, a, 0, ADDRESSES - 1, Bucket(m, Hash(a)));
    BucketMatches(m, a);
  }

  /** Longest-prefix match over the whole table is one walk of one bucket. */
  lemma LookupIsLongestMatch(trees: seq<Tree>, m: Table, a: nat)
    requires Refines(trees, m)
    ensures var w := Walk(trees[Hash(a)], a, Nil);
      && (w.Nil? <==> NoMatch(m, a))
      && (w.Node? ==> LongestMatch(m, a, w.v.range) && m[w.v.range] == InfoOf(w.v))
  {
    assert Holding(trees[Hash(a)], m, Hash(a));
    BucketLookup(trees[Hash(a)], m, a);
  }

  // ---------------------------------------------------------------- histories

  /** One routing command: add with type bits and gateway, or delete. */
  datatype Command = Add(e: Entry) | Delete(r: Range)

  function Target(c: Command): Range {
    match c case Add(e) => e.range case Delete(r) => r
  }

  function Apply(m: Table, c: Command): Table {
    match c case Add(e) => TableAdd(m, e) case Delete(r) => TableDel(m, r)
  }

  function ApplyAll(m: Table, cs: seq<Command>): Table {
    if cs == [] then m else Apply(ApplyAll(m, cs[..|cs| - 1]), cs[|cs| - 1])
  }

  lemma ApplyAllSnoc(cs: seq<Command>, c: Command)
    ensures ApplyAll(map[], cs + [c]) == Apply(ApplyAll(map[], cs), c)
  {
    assert (cs + [c])[..|cs + [c]| - 1] == cs;
  }

  /** What has become of a range: no route, an ordinary one, or one that so many
      interfaces still want. */
  datatype Life = Dead | Ordinary | Shared(users: nat)

  function Lived(l: Life, c: Command): Life {
    match c
    case Add(e) =>
      if IsIfc(e) then Shared(if l.Shared? then l.users + 1 else 1)
      else if l.Dead? then Ordinary else l
    case Delete(_) =>
      if l.Shared? && l.users > 1 then Shared(l.users - 1) else Dead
  }

  /** Only the commands for range r count. */
  function LifeOf(cs: seq<Command>, r: Range): Life {
    if cs == [] then Dead
    else
      var l := LifeOf(cs[..|cs| - 1], r);
      if Target(cs[|cs| - 1]) == r then Lived(l, cs[|cs| - 1]) else l
  }

  /** After every history a range has a route exactly while it lives, with as many
      references as there are interfaces left, or one for an ordinary route. */
  lemma {:induction false} RouteLives(cs: seq<Command>, r: Range)
    requires forall c :: c in cs && c.Add? ==> c.e.ref == 1
    ensures var m, l := ApplyAll(map[], cs), LifeOf(cs, r);
      && (r in m <==> !l.Dead?)
      && (r in m ==> (IsIfc(EntryOf(r, m[r])) <==> l.Shared?) && m[r].ref == if l.Shared? then l.users else 1)
      && (l.Shared? ==> l.users > 0)
  {
    if cs != [] {
      var c := cs[|cs| - 1];
      assert c in cs;
      RouteLives(cs[..|cs| - 1], r);
    }
  }

  /** The command that says where the traffic for r goes: the last add of r that did
      not find an interface route there. */
  function Setter(cs: seq<Command>, r: Range): int {
    if cs == [] then -1
    else
      var front, c := cs[..|cs| - 1], cs[|cs| - 1];
      if c.Add? && c.e.range == r && !LifeOf(front, r).Shared? then |cs| - 1 else Setter(front, r)
  }

  /** Command k added r with this type and gateway, to no route or an ordinary one;
      r has had a route ever since, and every later add of it found an interface
      route. */
  ghost predicate SetBy(cs: seq<Command>, k: int, r: Range, rtype: bv8, gate: nat) {
    && 0 <= k < |cs| && cs[k].Add? && cs[k].e.range == r && cs[k].e.rtype == rtype && cs[k].e.gate == gate
    && !LifeOf(cs[..k], r).Shared?
    && (forall j :: k < j <= |cs| ==> !LifeOf(cs[..j], r).Dead?)
    && forall j :: k < j < |cs| && cs[j].Add? && cs[j].e.range == r ==> LifeOf(cs[..j], r).Shared?
  }

  lemma SetByLater(cs: seq<Command>, c: Command, k: int, r: Range, rtype: bv8, gate: nat)
    requires SetBy(cs, k, r, rtype, gate) && !LifeOf(cs + [c], r).Dead?
    requires c.Add? && c.e.range == r ==> LifeOf(cs, r).Shared?
    ensures SetBy(cs + [c], k, r, rtype, gate)
  {
    var ds := cs + [c];
    assert forall j :: 0 <= j <= |cs| ==> ds[..j] == cs[..j];
    assert ds[..|ds|] == ds && cs[..|cs|] == cs;
  }

  lemma SetByLast(cs: seq<Command>, e: Entry)
    requires !LifeOf(cs, e.range).Shared?
    ensures SetBy(cs + [Add(e)], |cs|, e.range, e.rtype, e.gate)
  {
    var ds := cs + [Add(e)];
    assert ds[..|cs|] == cs && ds[..|ds|] == ds;
    LifeSnoc(cs, Add(e), e.range);
    forall j | |cs| < j <= |ds|
      ensures !LifeOf(ds[..j], e.range).Dead?
    {
      assert ds[..j] == ds;
    }
  }

  lemma LifeSnoc(cs: seq<Command>, c: Command, r: Range)
    ensures LifeOf(cs + [c], r) == if Target(c) == r then Lived(LifeOf(cs, r), c) else LifeOf(cs, r)
  {
    assert (cs + [c])[..|cs + [c]| - 1] == cs;
  }

  /** After every history a live route carries the type and the gateway of one add:
      the last since the range came to life, but none after the first interface. */
  lemma {:induction false} RouteSource(cs: seq<Command>, r: Range)
    requires forall c :: c in cs && c.Add? ==> c.e.ref == 1
    ensures var m := ApplyAll(map[], cs); r in m ==> SetBy(cs, Setter(cs, r), r, m[r].rtype, m[r].gate)
  {
    if cs != [] {
      var front, c := cs[..|cs| - 1], cs[|cs| - 1];
      assert cs == front + [c];
      RouteSource(front, r);
      RouteLives(front, r);
      RouteLives(cs, r);
      if r in ApplyAll(map[], cs) {
        SourceStep(front, c, r);
      }
    }
  }

  lemma SourceStep(front: seq<Command>, c: Command, r: Range)
    requires var m, l := ApplyAll(map[], front), LifeOf(front, r);
      && (r in m <==> !l.Dead?) && (r in m ==> (IsIfc(EntryOf(r, m[r])) <==> l.Shared?))
      && (r in m ==> SetBy(front, Setter(front, r), r, m[r].rtype, m[r].gate))
    requires r in ApplyAll(map[], front + [c]) && !LifeOf(front + [c], r).Dead?
    ensures var now := ApplyAll(map[], front + [c])[r];
      SetBy(front + [c], Setter(front + [c], r), r, now.rtype, now.gate)
  {
    var m := ApplyAll(map[], front);
    var cs := front + [c];
    assert cs[..|cs| - 1] == front;
    ApplyAllSnoc(front, c);
    if c.Add? && c.e.range == r && !LifeOf(front, r).Shared? {
      SetByLast(front, c.e);
    } else {
      SetByLater(front, c, Setter(front, r), r, m[r].rtype, m[r].gate);
    }
  }

  /** Live interface routes: adds of the range minus deletes of it. */
  function Balanced(cs: seq<Command>, r: Range): int {
    if cs == [] then 0
    else Balanced(cs[..|cs| - 1], r)
         + (match cs[|cs| - 1]
            case Add(e) => if e.range == r then 1 else 0
            case Delete(x) => if x == r then -1 else 0)
  }

  /** An interface range added n times, never more deletes than adds so far, is
      live exactly while adds outnumber deletes, and counts the difference. */
  lemma {:induction false} InterfaceCounts(cs: seq<Command>, r: Range)
    requires forall c :: c in cs && c.Add? && c.e.range == r ==> IsIfc(c.e) && c.e.ref == 1
    requires forall k :: 0 <= k <= |cs| ==> Balanced(cs[..k], r) >= 0
    ensures var m := ApplyAll(map[], cs);
      && (r in m <==> Balanced(cs, r) > 0)
      && (r in m ==> m[r].ref == Balanced(cs, r) && IsIfc(EntryOf(r, m[r])))
  {
    if cs != [] {
      var front := cs[..|cs| - 1];
      assert forall k :: 0 <= k <= |front| ==> front[..k] == cs[..k];
      assert cs[..|cs|] == cs && cs[|cs| - 1] in cs;
      InterfaceCounts(front, r);
    }
  }

  /** Buckets lo up to h already hold the new table, the others the old one. */
  ghost predicate Partly(ts: seq<Tree>, m: Table, now: Table, lo: int, h: int) {
    |ts| == NBUCKETS && forall k :: 0 <= k < NBUCKETS ==> Holding(ts[k], if lo <= k < h then now else m, k)
  }

  lemma PartlyStep(ts: seq<Tree>, d: Tree, m: Table, now: Table, lo: int, h: int)
    requires Partly(ts, m, now, lo, h) && 0 <= lo <= h < NBUCKETS && Holding(d, now, h)
    ensures Partly(ts[h := d], m, now, lo, h + 1)
  {
    var ts' := ts[h := d];
    forall k | 0 <= k < NBUCKETS ensures Holding(ts'[k], if lo <= k < h + 1 then now else m, k) {
      assert k != h ==> Holding(ts[k], if lo <= k < h then now else m, k);
    }
  }

  lemma PartlyReady(ts: seq<Tree>, m: Table, now: Table, lo: int, h: int, r: Range)
    requires Partly(ts, m, now, lo, h) && 0 <= lo <= h < NBUCKETS && AllPrefixes(m) && IsPrefix(r)
    ensures Ready(ts[h], r, 0, ADDRESSES - 1)
  {
    HoldingReady(ts[h], m, h, r);
  }

  lemma PartlyAdd(ts: seq<Tree>, m: Table, lo: int, h: int, id: Route, e: Entry)
    requires Partly(ts, m, TableAdd(m, e), lo, h) && 0 <= lo <= h < NBUCKETS
    requires AllPrefixes(m) && IsPrefix(e.range) && InBucket(e.range, h) && Ready(ts[h], e.range, 0, ADDRESSES - 1)
    ensures Partly(ts[h := AddRoute(ts[h], id, e, 0, ADDRESSES - 1)], m, TableAdd(m, e), lo, h + 1)
  {
    AddHolding(ts[h], m, h, id, e);
    PartlyStep(ts, AddRoute(ts[h], id, e, 0, ADDRESSES - 1), m, TableAdd(m, e), lo, h);
  }

  lemma PartlyDel(ts: seq<Tree>, m: Table, lo: int, h: int, x: Range)
    requires Partly(ts, m, TableDel(m, x), lo, h) && 0 <= lo <= h < NBUCKETS && InBucket(x, h)
    ensures Partly(ts[h := DelRoute(ts[h], x, 0, ADDRESSES - 1)], m, TableDel(m, x), lo, h + 1)
  {
    DelHolding(ts[h], m, h, x);
    PartlyStep(ts, DelRoute(ts[h], x, 0, ADDRESSES - 1), m, TableDel(m, x), lo, h);
  }

  lemma PartlyDone(ts: seq<Tree>, m: Table, c: Command)
    requires Partly(ts, m, Apply(m, c), Hash(Target(c).lo), Hash(Target(c).hi) + 1)
    requires AllPrefixes(m) && IsPrefix(Target(c))
    ensures Refines(ts, Apply(m, c))
  {
    forall k | 0 <= k < NBUCKETS ensures Holding(ts[k], Apply(m, c), k) {
      if !InBucket(Target(c), k) {
        OtherBuckets(ts[k], m, k, match c case Add(e) => e case Delete(x) => Entry(x, 0, 0, 0));
      }
    }
  }
}
