/** The map of physical addresses and its allocator. */
module AddressMap {

  const MAPSIZE := 400
  const MFREE := 0
  const NOCOLOR := -1

  /** A range of addresses, its type, use, colour and memory flags. */
  datatype Adrmap = Adrmap(base: nat, len: nat, atype: int, use: nat, color: int, memflags: nat)

  predicate Holds(a: Adrmap, x: int) {
    a.base <= x < a.base + a.len
  }

  /** In order of address, none reaching into the next. */
  ghost predicate Sorted(m: seq<Adrmap>) {
    forall i, j :: 0 <= i < j < |m| ==> m[i].base + m[i].len <= m[j].base
  }

  /** What the map says about address x. */
  datatype About = Unknown | About(atype: int, use: nat, color: int, memflags: nat)

  function AboutOf(a: Adrmap): About {
    About(a.atype, a.use, a.color, a.memflags)
  }

  function At(m: seq<Adrmap>, x: int): About {
    if m == [] then Unknown else if Holds(m[0], x) then AboutOf(m[0]) else At(m[1..], x)
  }

  lemma {:induction false} AtConcat(a: seq<Adrmap>, b: seq<Adrmap>, x: int)
    ensures At(a + b, x) == if At(a, x) == Unknown then At(b, x) else At(a, x)
  {
    if a == [] {
      assert a + b == b;
    } else {
      assert (a + b)[1..] == a[1..] + b;
      AtConcat(a[1..], b, x);
    }
  }

  lemma {:induction false} AtMiss(m: seq<Adrmap>, x: int)
    requires forall i :: 0 <= i < |m| ==> !Holds(m[i], x)
    ensures At(m, x) == Unknown
  {
    if m != [] {
      AtMiss(m[1..], x);
    }
  }

  /** In a sorted map the entry that holds x is the one that speaks for it. */
  lemma AtIs(m: seq<Adrmap>, i: nat, x: int)
    requires Sorted(m) && i < |m| && Holds(m[i], x)
    ensures At(m, x) == AboutOf(m[i])
  {
    assert m == m[..i] + m[i..];
    AtConcat(m[..i], m[i..], x);
    AtMiss(m[..i], x);
  }

  // ---------------------------------------------------------------- adrlook

  /** An entry holds all of [pa, pa+len). */
  predicate Spans(a: Adrmap, pa: nat, len: nat) {
    a.base <= pa && pa + len <= a.base + a.len
  }

  /** The linear scan. */
  function Scan(m: seq<Adrmap>, pa: nat, len: nat): (i: nat)
    ensures i <= |m| && (i < |m| ==> Spans(m[i], pa, len)) && forall j :: 0 <= j < i ==> !Spans(m[j], pa, len)
  {
    if m == [] || Spans(m[0], pa, len) then 0 else 1 + Scan(m[1..], pa, len)
  }

  // ---------------------------------------------------------------- splitting

  /** Entry i cut after its first l addresses. */
  function Split(m: seq<Adrmap>, i: nat, l: nat): seq<Adrmap>
    requires i < |m| && l <= m[i].len
  {
    m[..i] + [m[i].(len := l), m[i].(base := m[i].base + l, len := m[i].len - l)] + m[i + 1..]
  }

  lemma SplitItems(m: seq<Adrmap>, i: nat, l: nat)
    requires i < |m| && l <= m[i].len
    ensures var s := Split(m, i, l);
            && |s| == |m| + 1 && s[i] == m[i].(len := l)
            && s[i + 1] == m[i].(base := m[i].base + l, len := m[i].len - l)
            && (forall j :: 0 <= j < i ==> s[j] == m[j]) && forall j :: i + 1 < j < |s| ==> s[j] == m[j - 1]
  {}

  lemma SplitSorted(m: seq<Adrmap>, i: nat, l: nat)
    requires Sorted(m) && i < |m| && l <= m[i].len
    ensures Sorted(Split(m, i, l))
  {
    var s := Split(m, i, l);
    var end := m[i].base + m[i].len;
    forall j, k | 0 <= j < k < |s|
      ensures s[j].base + s[j].len <= s[k].base
    {
      var p, q := if j <= i then j else j - 1, if k <= i then k else k - 1;
      assert s[j].base + s[j].len <= m[p].base + m[p].len && s[k].base >= m[q].base;
      if p < q {
        assert m[p].base + m[p].len <= m[q].base;
      }
    }
  }

  /** A stretch of entries may be exchanged for one that says the same. */
  lemma AtExchange(l: seq<Adrmap>, a: seq<Adrmap>, b: seq<Adrmap>, r: seq<Adrmap>, x: int)
    requires At(a, x) == At(b, x)
    ensures At(l + (a + r), x) == At(l + (b + r), x)
  {
    AtConcat(l, a + r, x);
    AtConcat(l, b + r, x);
    AtConcat(a, r, x);
    AtConcat(b, r, x);
  }

  lemma AtPair(a: Adrmap, b: Adrmap, x: int)
    ensures At([a], x) == if Holds(a, x) then AboutOf(a) else Unknown
    ensures At([a, b], x) == if Holds(a, x) then AboutOf(a) else if Holds(b, x) then AboutOf(b) else Unknown
  {
    assert [a][1..] == [] && [a, b][1..] == [b] && [b][1..] == [];
    assert At([b], x) == if Holds(b, x) then AboutOf(b) else Unknown;
  }

  lemma SplitAt(m: seq<Adrmap>, i: nat, l: nat, x: int)
    requires i < |m| && l <= m[i].len
    ensures At(Split(m, i, l), x) == At(m, x)
  {
    var a, b := m[i].(len := l), m[i].(base := m[i].base + l, len := m[i].len - l);
    CutSame(m[i], l, x);
    AtExchange(m[..i], [m[i]], [a, b], m[i + 1..], x);
    assert m == m[..i] + ([m[i]] + m[i + 1..]);
    assert Split(m, i, l) == m[..i] + ([a, b] + m[i + 1..]);
  }

  /** Cutting an entry changes nothing that the map says. */
  lemma SplitKeeps(m: seq<Adrmap>, i: nat, l: nat)
    requires Sorted(m) && i < |m| && l <= m[i].len
    ensures Sorted(Split(m, i, l))
    ensures forall x :: At(Split(m, i, l), x) == At(m, x)
  {
    SplitSorted(m, i, l);
    forall x
      ensures At(Split(m, i, l), x) == At(m, x)
    {
      SplitAt(m, i, l, x);
    }
  }

  lemma CutSame(e: Adrmap, l: nat, x: int)
    requires l <= e.len
    ensures At([e], x) == At([e.(len := l), e.(base := e.base + l, len := e.len - l)], x)
  {
    AtPair(e, e, x);
    AtPair(e.(len := l), e.(base := e.base + l, len := e.len - l), x);
  }

  /** Entry i relabelled. */
  lemma RelabelKeeps(m: seq<Adrmap>, i: nat, b: Adrmap)
    requires Sorted(m) && i < |m| && b.base == m[i].base && b.len == m[i].len
    ensures Sorted(m[i := b])
    ensures forall x :: At(m[i := b], x) == if Holds(b, x) then AboutOf(b) else At(m, x)
  {
    var s := m[i := b];
    assert forall k :: 0 <= k < |s| ==> s[k].base == m[k].base && s[k].len == m[k].len;
    forall x
      ensures At(s, x) == if Holds(b, x) then AboutOf(b) else At(m, x)
    {
      if Holds(b, x) {
        AtIs(s, i, x);
      } else {
        assert m == m[..i] + ([m[i]] + m[i + 1..]) && s == m[..i] + ([b] + m[i + 1..]);
        AtConcat(m[..i], [m[i]] + m[i + 1..], x);
        AtConcat(m[..i], [b] + m[i + 1..], x);
        assert ([m[i]] + m[i + 1..])[1..] == m[i + 1..] && ([b] + m[i + 1..])[1..] == m[i + 1..];
      }
    }
  }

  // ---------------------------------------------------------------- insert

  /** Where insert puts a: behind the last entry that starts before it. */
  ghost predicate Slot(m: seq<Adrmap>, a: Adrmap, i: nat) {
    i <= |m| && (i > 0 ==> m[i - 1].base < a.base) && forall j :: i <= j < |m| ==> m[j].base >= a.base
  }

  /** a neither overlaps e nor stands before an entry at its own base. */
  predicate Clear(a: Adrmap, e: Adrmap) {
    if e.base < a.base then e.base + e.len <= a.base else a.base + a.len <= e.base
  }

  /** Inserting keeps the map in order exactly when the range is clear of every
      entry; then the map says of it what was inserted, and of the rest what it
      said. */
  lemma InsertKeeps(m: seq<Adrmap>, a: Adrmap, i: nat)
    requires Sorted(m) && Slot(m, a, i)
    ensures var s := m[..i] + [a] + m[i..];
            && (Sorted(s) <==> forall e :: e in m ==> Clear(a, e))
            && (Sorted(s) ==> forall x :: At(s, x) == if Holds(a, x) then AboutOf(a) else At(m, x))
  {
    var s := m[..i] + [a] + m[i..];
    if forall e :: e in m ==> Clear(a, e) {
      InsertSorted(m, a, i);
    }
    if Sorted(s) {
      forall e | e in m
        ensures Clear(a, e)
      {
        var j :| 0 <= j < |m| && m[j] == e;
        SortedClear(m, a, i, j);
      }
      forall x
        ensures At(s, x) == if Holds(a, x) then AboutOf(a) else At(m, x)
      {
        InsertAt(m, a, i, x);
      }
    }
  }

  lemma SortedClear(m: seq<Adrmap>, a: Adrmap, i: nat, j: nat)
    requires Sorted(m) && Slot(m, a, i) && j < |m| && Sorted(m[..i] + [a] + m[i..])
    ensures Clear(a, m[j])
  {
    var s := m[..i] + [a] + m[i..];
    SortedBefore(m, i, j, a);
    assert s[i] == a && s[if j < i then j else j + 1] == m[j];
  }

  lemma SortedBefore(m: seq<Adrmap>, i: nat, j: nat, a: Adrmap)
    requires Sorted(m) && Slot(m, a, i) && j < |m|
    ensures m[j].base < a.base <==> j < i
  {
    if j < i - 1 {
      assert m[j].base + m[j].len <= m[i - 1].base;
    }
  }

  lemma InsertSorted(m: seq<Adrmap>, a: Adrmap, i: nat)
    requires Sorted(m) && Slot(m, a, i) && forall e :: e in m ==> Clear(a, e)
    ensures Sorted(m[..i] + [a] + m[i..])
  {
    var s := m[..i] + [a] + m[i..];
    forall j, k | 0 <= j < k < |s|
      ensures s[j].base + s[j].len <= s[k].base
    {
      if j == i {
        assert Clear(a, m[k - 1]);
      } else if k == i {
        SortedBefore(m, i, j, a);
        assert Clear(a, m[j]);
      }
    }
  }

  lemma InsertAt(m: seq<Adrmap>, a: Adrmap, i: nat, x: int)
    requires i <= |m| && Sorted(m[..i] + [a] + m[i..])
    ensures At(m[..i] + [a] + m[i..], x) == if Holds(a, x) then AboutOf(a) else At(m, x)
  {
    var s := m[..i] + [a] + m[i..];
    if Holds(a, x) {
      assert s[i] == a;
      AtIs(s, i, x);
    } else {
      assert s == m[..i] + ([a] + m[i..]) && m == m[..i] + m[i..];
      AtConcat(m[..i], [a] + m[i..], x);
      AtConcat(m[..i], m[i..], x);
      assert ([a] + m[i..])[1..] == m[i..];
    }
  }

  lemma InsertItems(m: seq<Adrmap>, s: seq<Adrmap>, a: Adrmap, i: nat)
    requires i <= |m| && |s| == |m| + 1 && s[i] == a
    requires (forall j :: 0 <= j < i ==> s[j] == m[j]) && forall j :: i < j < |s| ==> s[j] == m[j - 1]
    ensures s == m[..i] + [a] + m[i..]
  {}

  // ---------------------------------------------------------------- the map in memory

  function RoundUp(x: nat, y: nat): nat
    requires y > 0
  {
    (x + y - 1) / y * y
  }

  ghost predicate Aligned(x: nat, y: nat) {
    y > 0 ==> exists q: nat :: x == q * y
  }

  lemma RoundUpAligns(x: nat, y: nat)
    requires y > 0
    ensures x <= RoundUp(x, y) < x + y && Aligned(RoundUp(x, y), y)
  {
    var q, r := (x + y - 1) / y, (x + y - 1) % y;
    assert x + y - 1 == y * q + r;
  }

  /** The alignment slop at x. */
  function Slop(x: nat, align: nat): nat {
    if align == 0 then 0
    else
      RoundUpAligns(x, align);
      RoundUp(x, align) - x
  }

  lemma SlopAligns(x: nat, align: nat)
    ensures Aligned(x + Slop(x, align), align) && (Slop(x, align) == 0 || Slop(x, align) < align)
  {
    if align > 0 {
      RoundUpAligns(x, align);
    }
  }

  datatype Outcome = Got(base: nat) | Failed | Panicked

  /** A free entry of the type asked for, holding the range asked for. */
  ghost predicate Suits(e: Adrmap, base: nat, len: nat, align: nat, atype: int) {
    && e.use == MFREE && (atype == -1 || e.atype == atype) && (base != 0 ==> Spans(e, base, len))
    && var start := if base == 0 then e.base else base;
       start + Slop(start, align) + len <= e.base + e.len
  }

  /** e is free memory of the type asked for, and holds the range asked for or,
      from the base asked for on, an aligned one of that length. */
  ghost predicate Provides(e: Adrmap, base: nat, len: nat, align: nat, atype: int) {
    && e.use == MFREE && (atype == -1 || e.atype == atype)
    && (base != 0 ==> e.base <= base && base + len <= e.base + e.len)
    && exists x: nat :: Inside(x, e, base, len, align)
  }

  ghost predicate Inside(x: nat, e: Adrmap, base: nat, len: nat, align: nat) {
    (if base == 0 then e.base else base) <= x && x + len <= e.base + e.len && Aligned(x, align)
  }

  lemma Scale(x: nat, y: nat, b: nat)
    requires x <= y
    ensures x * b <= y * b
  {}

  lemma RoundedUp(x: nat, align: nat, q: nat)
    requires align > 0 && x <= q * align
    ensures (x + align - 1) / align <= q
  {
    var p, r := (x + align - 1) / align, (x + align - 1) % align;
    assert x + align - 1 == p * align + r;
    assert (q + 1) * align == q * align + align;
    if q < p {
      Scale(q + 1, p, align);
    }
  }

  /** No aligned address lies between x and the one the slop leads to. */
  lemma SlopIsLeast(x: nat, align: nat, y: nat)
    requires x <= y && Aligned(y, align)
    ensures x + Slop(x, align) <= y
  {
    if align > 0 {
      var q: nat :| y == q * align;
      RoundedUp(x, align, q);
      Scale((x + align - 1) / align, q, align);
    }
  }

  lemma SuitsIffProvides(e: Adrmap, base: nat, len: nat, align: nat, atype: int)
    ensures Suits(e, base, len, align, atype) <==> Provides(e, base, len, align, atype)
  {
    var from := if base == 0 then e.base else base;
    if Suits(e, base, len, align, atype) {
      SlopAligns(from, align);
      assert Inside(from + Slop(from, align), e, base, len, align);
    }
    if Provides(e, base, len, align, atype) {
      var x: nat :| Inside(x, e, base, len, align);
      SlopIsLeast(from, align, x);
    }
  }

  /** No entry provides what is asked for. */
  ghost predicate Exhausted(m: seq<Adrmap>, base: nat, len: nat, align: nat, atype: int) {
    forall e :: e in m ==> !Provides(e, base, len, align, atype)
  }

  lemma NoneRemains(m: seq<Adrmap>, base: nat, len: nat, align: nat, atype: int)
    ensures Remains(m, 0, base, len, align, atype) <==> !Exhausted(m, base, len, align, atype)
  {
    forall j | 0 <= j < |m|
      ensures Suits(m[j], base, len, align, atype) <==> Provides(m[j], base, len, align, atype)
    {
      SuitsIffProvides(m[j], base, len, align, atype);
    }
  }

  /** Some entry from i on suits. */
  ghost predicate Remains(m: seq<Adrmap>, i: nat, base: nat, len: nat, align: nat, atype: int) {
    exists j :: i <= j < |m| && Suits(m[j], base, len, align, atype)
  }

  class Adr {
    const ranges: array<Adrmap>
    var nmap: nat

    ghost predicate Valid()
      reads this, ranges
    {
      ranges.Length == MAPSIZE && nmap <= MAPSIZE
    }

    function Contents(): seq<Adrmap>
      requires nmap <= ranges.Length
      reads this, ranges
    {
      ranges[..nmap]
    }

    constructor ()
      ensures Valid() && Contents() == [] && fresh(ranges)
    {
      ranges := new Adrmap[MAPSIZE](_ => Adrmap(0, 0, 0, 0, 0, 0));
      nmap := 0;
    }

    /** Find the place of a, moving the entries behind it up one place. */
    method OpenSlot(a: Adrmap) returns (k: nat)
      requires Valid() && nmap < MAPSIZE
      modifies ranges
      ensures k <= nmap && Slot(old(Contents()), a, k)
      ensures forall j :: 0 <= j < k ==> ranges[j] == old(ranges[j])
      ensures forall j :: k < j <= nmap ==> ranges[j] == old(ranges[j - 1])
    {
      k := nmap;
      while k >= 1 && ranges[k - 1].base >= a.base
        invariant k <= nmap < MAPSIZE
        invariant forall j :: 0 <= j < k ==> ranges[j] == old(ranges[j])
        invariant forall j :: k < j <= nmap ==> ranges[j] == old(ranges[j - 1])
        invariant forall j :: k <= j < nmap ==> old(ranges[j]).base >= a.base
      {
        ranges[k] := ranges[k - 1];
        k := k - 1;
      }
    }

    /** insert: a full map stays as it is. */
    method Insert(a: Adrmap) returns (ghost i: nat)
      requires Valid()
      modifies this`nmap, ranges
      ensures Valid()
      ensures old(nmap) == MAPSIZE ==> Contents() == old(Contents())
      ensures old(nmap) < MAPSIZE ==>
                Slot(old(Contents()), a, i) && Contents() == old(Contents())[..i] + [a] + old(Contents())[i..]
    {
      i := 0;
      if nmap == MAPSIZE {
        return;
      }
      var k := OpenSlot(a);
      ranges[k] := a;
      nmap := nmap + 1;
      i := k;
      InsertItems(old(Contents()), Contents(), a, k);
    }

    /** adrlook: the binary search finds an entry that holds the range exactly when
        there is one, and the one the linear scan would find. */
    method Look(pa: nat, len: nat) returns (r: int)
      requires Valid() && Sorted(Contents())
      ensures r >= 0 ==> r < nmap && Spans(ranges[r], pa, len)
      ensures r < 0 <==> Scan(Contents(), pa, len) == nmap
      ensures r >= 0 && len > 0 ==> r == Scan(Contents(), pa, len)
    {
      var tab: nat, n: nat := 0, nmap;
      ghost var m := Contents();
      while n > 0
        invariant tab + n <= nmap && forall j :: 0 <= j < nmap && !(tab <= j < tab + n) ==> !Spans(m[j], pa, len)
      {
        var i := n / 2;
        var e := ranges[tab + i];
        assert e == m[tab + i];
        if e.base <= pa {
          if pa + len - e.base <= e.len {
            return tab + i;
          }
          tab := tab + i + 1;
          n := n - (i + 1);
        } else {
          n := i;
        }
      }
      r := -1;
    }

    /** Move the entries from i on up one place. */
    method MoveUp(i: nat)
      requires Valid() && i < nmap < MAPSIZE
      modifies this`nmap, ranges
      ensures Valid() && nmap == old(nmap) + 1
      ensures forall j :: 0 <= j <= i ==> ranges[j] == old(ranges[j])
      ensures forall j :: i < j <= old(nmap) ==> ranges[j] == old(ranges[j - 1])
    {
      var k: nat := nmap;
      while k > i
        invariant i <= k <= nmap == old(nmap) < MAPSIZE
        invariant forall j :: 0 <= j <= k && j < nmap ==> ranges[j] == old(ranges[j])
        invariant forall j :: k < j <= nmap ==> ranges[j] == old(ranges[j - 1])
      {
        ranges[k] := ranges[k - 1];
        k := k - 1;
      }
      nmap := nmap + 1;
    }

    /** Cut entry i: the entries behind it move up one place. */
    method SplitEntry(i: nat, l: nat)
      requires Valid() && i < nmap < MAPSIZE && l <= ranges[i].len
      modifies this`nmap, ranges
      ensures Valid() && Contents() == Split(old(Contents()), i, l)
    {
      ghost var was := Contents();
      MoveUp(i);
      ranges[i] := ranges[i].(len := l);
      ranges[i + 1] := ranges[i + 1].(base := ranges[i + 1].base + l, len := ranges[i + 1].len - l);
      SplitItems(was, i, l);
      assert Contents() == Split(was, i, l);
    }

    /** Relabel the first n addresses of entry i. */
    method Claim(i: nat, n: nat, use: nat, color: int, memflags: nat) returns (ok: bool)
      requires Valid() && Sorted(Contents()) && i < nmap && n <= ranges[i].len
      modifies this`nmap, ranges
      ensures Valid() && Sorted(Contents())
      ensures !ok ==> Contents() == old(Contents())
      ensures ok ==> forall x :: At(Contents(), x) == Claimed(old(Contents()), i, n, use, color, memflags, x)
    {
      ghost var was := Contents();
      if ranges[i].len > n {
        if nmap == MAPSIZE {
          return false;
        }
        SplitKeeps(was, i, n);
        SplitEntry(i, n);
      }
      ghost var mid := Contents();
      assert Same(was, mid);
      var e := ranges[i];
      assert e == mid[i] && e == was[i].(len := n);
      var b := e.(use := use, memflags := memflags, color := if color != NOCOLOR then color else e.color);
      RelabelKeeps(mid, i, b);
      ranges[i] := b;
      assert Contents() == mid[i := b];
      ghost var now := Contents();
      forall x
        ensures At(now, x) == Claimed(was, i, n, use, color, memflags, x)
      {
        assert At(mid, x) == At(was, x);
      }
      ok := true;
    }

    /** One turn of the loop of intadralloc, at entry i. */
    method Attempt(i: nat, base: nat, len: nat, align: nat, atype: int, use: nat, color: int, memflags: nat)
        returns (t: Turn)
      requires Valid() && Sorted(Contents()) && i < nmap
      modifies this`nmap, ranges
      ensures Valid() && Sorted(Contents())
      ensures t.Skip? || t.r.Panicked? ==> Same(old(Contents()), Contents())
      ensures t.Skip? ==> old(nmap) <= nmap && i < nmap
      ensures t.Skip? && Remains(old(Contents()), i, base, len, align, atype) ==>
                Remains(Contents(), i + 1, base, len, align, atype)
      ensures t.Skip? && base == 0 ==> Contents() == old(Contents()) && !Suits(Contents()[i], base, len, align, atype)
      ensures t.Done? ==> t.r.Panicked? || (t.r.Got? && t.lo == old(Contents())[i].base)
      ensures t.Done? && t.r.Got? ==>
                Fresh(old(Contents()), Contents(), t.lo, t.r.base, base, len, align, atype, use, color, memflags)
    {
      ghost var m := Contents();
      var a := ranges[i];
      assert m[i] == a;
      if (atype != -1 && a.atype != atype) || a.use != MFREE {
        return Skip;
      }
      if base != 0 {
        if base + len > a.base + a.len || base < a.base {
          return Skip;
        }
        if a.base < base {
          if nmap == MAPSIZE {
            return Done(Panicked, 0);
          }
          SplitKeeps(m, i, base - a.base);
          SplitRemains(m, i, base, len, align, atype);
          SplitEntry(i, base - a.base);
          return Skip;
        }
      }
      var slop := Slop(a.base, align);
      var adjlen := len + slop;
      if a.len < adjlen {
        return Skip;
      }
      t := Take(i, slop, base, len, align, atype, use, color, memflags);
    }

    /** The end of a successful turn. */
    method Take(i: nat, slop: nat, base: nat, len: nat, align: nat, atype: int, use: nat, color: int, memflags: nat)
        returns (t: Turn)
      requires Valid() && Sorted(Contents()) && i < nmap
      requires ranges[i].len >= len + slop && slop == Slop(ranges[i].base, align)
      requires ranges[i].use == MFREE && (atype == -1 || ranges[i].atype == atype)
      requires base != 0 ==> ranges[i].base == base
      modifies this`nmap, ranges
      ensures Valid() && Sorted(Contents()) && t.Done? && t.lo == old(ranges[i]).base
      ensures t.r.Panicked? ==> Contents() == old(Contents())
      ensures t.r.Panicked? || t.r.Got?
      ensures t.r.Got? ==>
                Fresh(old(Contents()), Contents(), t.lo, t.r.base, base, len, align, atype, use, color, memflags)
    {
      ghost var m := Contents();
      var a := ranges[i];
      assert m[i] == a;
      SlopAligns(a.base, align);
      var ok := Claim(i, len + slop, use, color, memflags);
      if !ok {
        return Done(Panicked, a.base);
      }
      ghost var now := Contents();
      forall x
        ensures Allotted(At(m, x), At(now, x), a.base <= x < a.base + slop + len, atype, use, color, memflags)
      {
        if Holds(a, x) {
          AtIs(m, i, x);
        }
      }
      return Done(Got(a.base + slop), a.base);
    }

    /** intadralloc. A success is an aligned range of free memory of the type asked
        for, starting within the alignment of lo; only the range and the slop
        before it change use, and without a base asked for it is the first that would
        do. It fails only when no free entry would do, and then
        nothing that the map says has changed. */
    method IntAdrAlloc(base: nat, len: nat, align: nat, atype: int, use: nat, color: int, memflags: nat)
        returns (r: Outcome, ghost lo: nat)
      requires Valid() && Sorted(Contents())
      modifies this`nmap, ranges
      ensures Valid() && Sorted(Contents())
      ensures !r.Got? ==> Same(old(Contents()), Contents())
      ensures r.Failed? ==> Exhausted(old(Contents()), base, len, align, atype)
      ensures r.Got? ==> Fresh(old(Contents()), Contents(), lo, r.base, base, len, align, atype, use, color, memflags)
      ensures r.Got? && base == 0 ==> Lowest(old(Contents()), lo, len, align, atype)
    {
      ghost var was := Contents();
      var i: nat := 0;
      while i < nmap
        invariant Valid() && Sorted(Contents()) && i <= nmap
        invariant Same(was, Contents())
        invariant Remains(was, 0, base, len, align, atype) ==> Remains(Contents(), i, base, len, align, atype)
        invariant base == 0 ==> Contents() == was && NoneBefore(was, i, len, align, atype)
        decreases MAPSIZE - nmap, nmap - i
      {
        ghost var m := Contents();
        var t := Attempt(i, base, len, align, atype, use, color, memflags);
        if t.Done? {
          if t.r.Got? {
            FreshSame(was, m, Contents(), t.lo, t.r.base, base, len, align, atype, use, color, memflags);
            if base == 0 {
              IsLowest(was, i, len, align, atype);
            }
          }
          return t.r, t.lo;
        }
        i := i + 1;
      }
      NoneRemains(was, base, len, align, atype);
      r, lo := Failed, 0;
    }
  }

  ghost predicate NoneBefore(m: seq<Adrmap>, i: nat, len: nat, align: nat, atype: int) {
    i <= |m| && forall j :: 0 <= j < i ==> !Suits(m[j], 0, len, align, atype)
  }

  /** The entry at lo is the first that suits a request for no particular base. */
  ghost predicate Lowest(m: seq<Adrmap>, lo: nat, len: nat, align: nat, atype: int) {
    exists i :: 0 <= i < |m| && m[i].base == lo && Exhausted(m[..i], 0, len, align, atype)
  }

  lemma IsLowest(m: seq<Adrmap>, i: nat, len: nat, align: nat, atype: int)
    requires NoneBefore(m, i, len, align, atype) && i < |m|
    ensures Lowest(m, m[i].base, len, align, atype)
  {
    forall j | 0 <= j < i
      ensures !Provides(m[..i][j], 0, len, align, atype)
    {
      SuitsIffProvides(m[j], 0, len, align, atype);
    }
  }

  datatype Turn = Skip | Done(r: Outcome, lo: nat)

  /** The map says the same of every address. */
  ghost predicate Same(m: seq<Adrmap>, n: seq<Adrmap>) {
    forall x :: At(n, x) == At(m, x)
  }

  /** What is said of x when the first n addresses of entry i have been claimed. */
  ghost function Claimed(m: seq<Adrmap>, i: nat, n: nat, use: nat, color: int, memflags: nat, x: int): About
    requires i < |m|
  {
    if m[i].base <= x < m[i].base + n then
      About(m[i].atype, use, if color != NOCOLOR then color else m[i].color, memflags)
    else At(m, x)
  }

  /** The range [r, r+len) is allotted, with the slop from lo to r. */
  ghost predicate Fresh(m: seq<Adrmap>, now: seq<Adrmap>, lo: nat, r: nat, base: nat, len: nat, align: nat,
                        atype: int, use: nat, color: int, memflags: nat) {
    && Aligned(r, align) && lo <= r && (r == lo || r < lo + align) && (base != 0 ==> lo == base)
    && forall x :: Allotted(At(m, x), At(now, x), lo <= x < r + len, atype, use, color, memflags)
  }

  lemma FreshSame(was: seq<Adrmap>, m: seq<Adrmap>, now: seq<Adrmap>, lo: nat, r: nat, base: nat, len: nat, align: nat,
                  atype: int, use: nat, color: int, memflags: nat)
    requires Same(was, m) && Fresh(m, now, lo, r, base, len, align, atype, use, color, memflags)
    ensures Fresh(was, now, lo, r, base, len, align, atype, use, color, memflags)
  {
    forall x
      ensures Allotted(At(was, x), At(now, x), lo <= x < r + len, atype, use, color, memflags)
    {
      assert At(m, x) == At(was, x);
    }
  }

  /** The change of what is said about one address, within the allotted range or not. */
  ghost predicate Allotted(was: About, now: About, inside: bool, atype: int, use: nat, color: int, memflags: nat) {
    if inside then
      && was.About? && was.use == MFREE && (atype == -1 || was.atype == atype)
      && now == About(was.atype, use, if color != NOCOLOR then color else was.color, memflags)
    else now == was
  }

  /** Cutting at the base asked for leaves the suitable entry to the right. */
  lemma SplitRemains(m: seq<Adrmap>, i: nat, base: nat, len: nat, align: nat, atype: int)
    requires i < |m| && base != 0 && m[i].base < base <= m[i].base + m[i].len
    ensures Remains(m, i, base, len, align, atype) ==>
              Remains(Split(m, i, base - m[i].base), i + 1, base, len, align, atype)
  {
    var s := Split(m, i, base - m[i].base);
    if Remains(m, i, base, len, align, atype) {
      var j :| i <= j < |m| && Suits(m[j], base, len, align, atype);
      assert s[j + 1] == if j == i then m[i].(base := base, len := m[i].base + m[i].len - base) else m[j];
      assert Suits(s[j + 1], base, len, align, atype);
    }
  }
}
