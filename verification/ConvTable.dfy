/** The hash table that finds the conversation a packet belongs to. */
module ConvTable {
  import opened Wrappers

  const NIPHT := 521

  /** An address; its last byte takes part in the hash. */
  datatype Addr = Addr(front: nat, last: bv8)
  const NOADDR := Addr(0, 0)

  datatype Key = Key(raddr: Addr, rport: bv16, laddr: Addr, lport: bv16)

  class Conv {
    var raddr: Addr
    var rport: bv16
    var laddr: Addr
    var lport: bv16

    constructor (k: Key)
      ensures CurrentKey() == k
    {
      raddr, rport, laddr, lport := k.raddr, k.rport, k.laddr, k.lport;
    }

    function CurrentKey(): Key
      reads this
    {
      Key(raddr, rport, laddr, lport)
    }
  }

  /** The five levels, the best first. */
  datatype Match = Exact | AddrPort | Port | OnlyAddr | Any

  function MatchOf(k: Key): Match {
    if k.raddr != NOADDR then Exact
    else if k.laddr != NOADDR then (if k.lport == 0 then OnlyAddr else AddrPort)
    else if k.lport == 0 then Any else Port
  }

  function Mixed(k: Key): bv32 {
    ((k.raddr.last as bv32) << 24) ^ ((k.rport as bv32) << 16) ^ ((k.laddr.last as bv32) << 8) ^ (k.lport as bv32)
  }

  function Hash(k: Key): (h: nat)
    ensures h < NIPHT
  {
    (Mixed(k) % 64) as nat
  }

  /** With 64 buckets only the local port matters. */
  lemma HashIsLocalPort(k: Key, j: Key)
    requires k.lport == j.lport
    ensures Hash(k) == Hash(j)
  {
    LowBits(k.raddr.last as bv32, k.rport as bv32, k.laddr.last as bv32, k.lport as bv32);
    LowBits(j.raddr.last as bv32, j.rport as bv32, j.laddr.last as bv32, j.lport as bv32);
  }

  lemma LowBits(a: bv32, b: bv32, c: bv32, d: bv32)
    ensures ((a << 24) ^ (b << 16) ^ (c << 8) ^ d) % 64 == d % 64
  {}

  // ---------------------------------------------------------------- what a lookup should find

  /** A registration: the conversation, its key and the bucket of the key. */
  datatype Reg = Reg(c: Conv, key: Key, hv: nat)

  /** A packet from (sa, sp) to (da, dp) meets the key k at level m. */
  predicate Meets(m: Match, k: Key, p: Key) {
    MatchOf(k) == m &&
    match m
    case Exact => k == p
    case AddrPort => p.lport == k.lport && p.laddr == k.laddr
    case Port => p.lport == k.lport
    case OnlyAddr => p.laddr == k.laddr
    case Any => true
  }

  /** The newest registration that p meets at level m. */
  function Newest(reg: seq<Reg>, m: Match, p: Key): (r: Option<Conv>)
    ensures r.Some? ==> exists x :: x in reg && x.c == r.value && Meets(m, x.key, p)
    ensures r.None? ==> forall x :: x in reg ==> !Meets(m, x.key, p)
  {
    if reg == [] then None
    else if Meets(m, reg[0].key, p) then Some(reg[0].c)
    else Newest(reg[1..], m, p)
  }

  function Or(a: Option<Conv>, b: Option<Conv>): Option<Conv> {
    if a.Some? then a else b
  }

  /** The linear scan: the newest at the best level. */
  function Best(reg: seq<Reg>, p: Key): Option<Conv> {
    Or(Newest(reg, Exact, p),
       Or(Newest(reg, AddrPort, p), Or(Newest(reg, Port, p), Or(Newest(reg, OnlyAddr, p), Newest(reg, Any, p)))))
  }

  /** The key whose bucket is searched at level m. */
  function Probe(m: Match, p: Key): Key {
    match m
    case Exact => p
    case AddrPort => Key(NOADDR, 0, p.laddr, p.lport)
    case Port => Key(NOADDR, 0, NOADDR, p.lport)
    case OnlyAddr => Key(NOADDR, 0, p.laddr, 0)
    case Any => Key(NOADDR, 0, NOADDR, 0)
  }

  /** Whatever p meets at level m is in the bucket searched at that level, also
      an announced conversation with a remote port. */
  lemma MetInBucket(m: Match, k: Key, p: Key)
    requires Meets(m, k, p)
    ensures Hash(k) == Hash(Probe(m, p))
  {
    HashIsLocalPort(k, Probe(m, p));
  }

  // ---------------------------------------------------------------- the table

  /** The registrations of bucket h, newest first. */
  function InBucket(reg: seq<Reg>, h: nat): seq<Reg> {
    if reg == [] then [] else (if reg[0].hv == h then [reg[0]] else []) + InBucket(reg[1..], h)
  }

  lemma {:induction false} BucketScan(reg: seq<Reg>, m: Match, p: Key)
    requires forall x :: x in reg ==> x.hv == Hash(x.key)
    ensures Newest(InBucket(reg, Hash(Probe(m, p))), m, p) == Newest(reg, m, p)
  {
    if reg != [] {
      var h := Hash(Probe(m, p));
      BucketScan(reg[1..], m, p);
      if reg[0].hv == h {
        assert InBucket(reg, h)[1..] == InBucket(reg[1..], h);
      } else {
        assert InBucket(reg, h) == InBucket(reg[1..], h);
        if Meets(m, reg[0].key, p) {
          MetInBucket(m, reg[0].key, p);
        }
      }
    }
  }

  /** Take out the newest registration of c. */
  function Without(reg: seq<Reg>, c: Conv): seq<Reg> {
    if reg == [] then [] else if reg[0].c == c then reg[1..] else [reg[0]] + Without(reg[1..], c)
  }

  lemma {:induction false} WithoutBucket(reg: seq<Reg>, c: Conv, hv: nat, h: nat)
    requires forall i :: 0 <= i < |reg| && reg[i].c == c ==> reg[i].hv == hv
    ensures InBucket(Without(reg, c), h) == if h == hv then Without(InBucket(reg, h), c) else InBucket(reg, h)
  {
    if reg != [] {
      var t := InBucket(reg[1..], h);
      if reg[0].c == c {
        assert ([reg[0]] + t)[1..] == t && [] + t == t;
      } else {
        WithoutBucket(reg[1..], c, hv, h);
        assert ([reg[0]] + Without(reg[1..], c))[1..] == Without(reg[1..], c);
        assert ([reg[0]] + t)[1..] == t && [] + t == t;
      }
    }
  }

  /** A link of a bucket's list. */
  datatype Iphash = Iphash(c: Conv, level: Match)

  ghost predicate Mirrors(l: seq<Iphash>, b: seq<Reg>) {
    |l| == |b| && forall i :: 0 <= i < |l| ==> l[i].c == b[i].c && l[i].level == MatchOf(b[i].key)
  }

  function DropFirst(l: seq<Iphash>, c: Conv): seq<Iphash> {
    if l == [] then [] else if l[0].c == c then l[1..] else [l[0]] + DropFirst(l[1..], c)
  }

  lemma {:induction false} DropMirrors(l: seq<Iphash>, b: seq<Reg>, c: Conv)
    requires Mirrors(l, b)
    ensures Mirrors(DropFirst(l, c), Without(b, c))
  {
    if l != [] && l[0].c != c {
      DropMirrors(l[1..], b[1..], c);
    }
  }

  class Ipht {
    const tab: array<seq<Iphash>>
    /** All registrations, newest first. */
    ghost var reg: seq<Reg>

    /** Every registered conversation still has the key it was registered with, and
        every bucket lists its own. */
    ghost predicate Valid()
      reads this, tab, set x | x in reg :: x.c
    {
      && tab.Length == NIPHT
      && (forall x :: x in reg ==> x.c.CurrentKey() == x.key && x.hv == Hash(x.key))
      && forall h :: 0 <= h < NIPHT ==> Mirrors(tab[h], InBucket(reg, h))
    }

    constructor ()
      ensures Valid() && reg == [] && fresh(tab)
    {
      tab := new seq<Iphash>[NIPHT](_ => []);
      reg := [];
    }

    method Add(c: Conv)
      requires Valid()
      modifies this, tab
      ensures Valid() && reg == [Reg(c, c.CurrentKey(), Hash(c.CurrentKey()))] + old(reg)
    {
      var k := c.CurrentKey();
      var hv := Hash(k);
      tab[hv] := [Iphash(c, MatchOf(k))] + tab[hv];
      ghost var was := reg;
      reg := [Reg(c, k, hv)] + reg;
      assert reg[1..] == was;
      forall h | 0 <= h < NIPHT
        ensures Mirrors(tab[h], InBucket(reg, h))
      {
        assert Mirrors(old(tab[h]), InBucket(was, h));
        BucketFirst(reg, h);
      }
    }

    method Remove(c: Conv)
      requires Valid()
      modifies this, tab
      ensures Valid() && reg == Without(old(reg), c)
    {
      ghost var was := reg;
      var hv := Hash(c.CurrentKey());
      assert Mirrors(tab[hv], InBucket(reg, hv));
      DropMirrors(tab[hv], InBucket(reg, hv), c);
      var l := Unlink(tab[hv], c);
      tab[hv] := l;
      WithoutIn(reg, c);
      reg := Without(reg, c);
      forall h | 0 <= h < NIPHT
        ensures Mirrors(tab[h], InBucket(reg, h))
      {
        WithoutBucket(was, c, hv, h);
        assert h != hv ==> Mirrors(old(tab[h]), InBucket(was, h));
      }
    }

    /** The loop of iphtrem over one list. */
    method Unlink(list: seq<Iphash>, c: Conv) returns (l: seq<Iphash>)
      ensures l == DropFirst(list, c)
    {
      var i := 0;
      while i < |list|
        invariant i <= |list| && DropFirst(list, c) == list[..i] + DropFirst(list[i..], c)
      {
        assert list[i..][1..] == list[i + 1..];
        if list[i].c == c {
          return list[..i] + list[i + 1..];
        }
        assert list[..i] + ([list[i]] + DropFirst(list[i + 1..], c)) == list[..i + 1] + DropFirst(list[i + 1..], c);
        i := i + 1;
      }
      l := list;
    }

    /** The test of one link at one level. */
    method Test(m: Match, h: Iphash, p: Key, ghost k: Key) returns (ok: bool)
      requires h.c.CurrentKey() == k && h.level == MatchOf(k)
      ensures ok == Meets(m, k, p)
    {
      if h.level != m {
        return false;
      }
      var c := h.c;
      match m
      case Exact => ok := p.rport == c.rport && p.lport == c.lport && p.raddr == c.raddr && p.laddr == c.laddr;
      case AddrPort => ok := p.lport == c.lport && p.laddr == c.laddr;
      case Port => ok := p.lport == c.lport;
      case OnlyAddr => ok := p.laddr == c.laddr;
      case Any => ok := true;
    }

    /** One of the five loops of iphtlook. */
    method Scan(m: Match, p: Key) returns (r: Option<Conv>)
      requires Valid()
      ensures r == Newest(reg, m, p)
    {
      var hv := Hash(Probe(m, p));
      var l := tab[hv];
      ghost var b := InBucket(reg, hv);
      BucketScan(reg, m, p);
      BucketIn(reg, hv);
      assert Mirrors(l, b);
      r := ScanList(l, m, p, b);
    }

    /** Its walk over the list of one bucket. */
    method ScanList(l: seq<Iphash>, m: Match, p: Key, ghost b: seq<Reg>) returns (r: Option<Conv>)
      requires Mirrors(l, b) && forall x :: x in b ==> x.c.CurrentKey() == x.key
      ensures r == Newest(b, m, p)
    {
      var i := 0;
      while i < |l|
        invariant i <= |l| && forall j :: 0 <= j < i ==> !Meets(m, b[j].key, p)
      {
        assert b[i] in b && l[i].c.CurrentKey() == b[i].key;
        var ok := Test(m, l[i], p, b[i].key);
        if ok {
          NewestIs(b, m, p, i);
          return Some(l[i].c);
        }
        i := i + 1;
      }
      NewestIs(b, m, p, i);
      return None;
    }

    /** iphtlook finds what a linear scan of all registrations would. */
    method Look(p: Key) returns (r: Option<Conv>)
      requires Valid()
      ensures r == Best(reg, p) && Answer(reg, p, r)
    {
      BestAnswers(reg, p);
      r := Scan(Exact, p);
      if r.Some? { return; }
      r := Scan(AddrPort, p);
      if r.Some? { return; }
      r := Scan(Port, p);
      if r.Some? { return; }
      r := Scan(OnlyAddr, p);
      if r.Some? { return; }
      r := Scan(Any, p);
    }
  }

  lemma {:induction false} NewestIs(b: seq<Reg>, m: Match, p: Key, i: nat)
    requires i <= |b| && (forall j :: 0 <= j < i ==> !Meets(m, b[j].key, p)) && (i < |b| ==> Meets(m, b[i].key, p))
    ensures Newest(b, m, p) == if i < |b| then Some(b[i].c) else None
  {
    if i > 0 {
      NewestIs(b[1..], m, p, i - 1);
    }
  }

  lemma {:induction false} WithoutIn(b: seq<Reg>, c: Conv)
    ensures forall x :: x in Without(b, c) ==> x in b
  {
    if b != [] {
      WithoutIn(b[1..], c);
    }
  }

  lemma BucketFirst(reg: seq<Reg>, h: nat)
    requires reg != []
    ensures InBucket(reg, h) == if reg[0].hv == h then [reg[0]] + InBucket(reg[1..], h) else InBucket(reg[1..], h)
  {}

  lemma {:induction false} BucketIn(reg: seq<Reg>, h: nat)
    ensures forall x :: x in InBucket(reg, h) ==> x in reg
  {
    if reg != [] {
      BucketIn(reg[1..], h);
    }
  }

  // ---------------------------------------------------------------- the answer on the raw fields

  /** A connected conversation wants all four fields; an announced one takes any
      remote end, any local address if it has none, and any local port if that is 0. */
  predicate Admits(k: Key, p: Key) {
    if k.raddr == NOADDR then (k.laddr == NOADDR || k.laddr == p.laddr) && (k.lport == 0 || k.lport == p.lport)
    else k.raddr == p.raddr && k.rport == p.rport && k.laddr == p.laddr && k.lport == p.lport
  }

  /** How much a key asks for: a remote end most, then a local port, then a local
      address. */
  function Weight(k: Key): nat {
    if k.raddr != NOADDR then 4
    else (if k.lport != 0 then 2 else 0) + if k.laddr != NOADDR then 1 else 0
  }

  /** Registration i is the newest of those that admit p and ask for the most. */
  ghost predicate Chosen(reg: seq<Reg>, p: Key, i: nat) {
    && i < |reg| && Admits(reg[i].key, p)
    && forall j :: 0 <= j < |reg| && Admits(reg[j].key, p) ==>
         Weight(reg[j].key) <= Weight(reg[i].key) && (j < i ==> Weight(reg[j].key) < Weight(reg[i].key))
  }

  /** The answer to a lookup for p. */
  ghost predicate Answer(reg: seq<Reg>, p: Key, r: Option<Conv>) {
    if r.None? then forall x :: x in reg ==> !Admits(x.key, p)
    else exists i :: 0 <= i < |reg| && reg[i].c == r.value && Chosen(reg, p, i)
  }

  lemma MeetsAdmits(m: Match, k: Key, p: Key)
    ensures Meets(m, k, p) <==> Admits(k, p) && m == MatchOf(k)
    ensures Weight(k) == 4 - Rank(MatchOf(k))
  {}

  lemma {:induction false} NewestAt(b: seq<Reg>, m: Match, p: Key) returns (i: nat)
    requires Newest(b, m, p).Some?
    ensures i < |b| && Newest(b, m, p) == Some(b[i].c) && Meets(m, b[i].key, p)
    ensures forall j :: 0 <= j < i ==> !Meets(m, b[j].key, p)
  {
    i := 0;
    if !Meets(m, b[0].key, p) {
      i := NewestAt(b[1..], m, p);
      i := i + 1;
    }
  }

  /** The five scans give the newest registration of the most specific that admit
      the packet. */
  lemma BestAnswers(reg: seq<Reg>, p: Key)
    ensures Answer(reg, p, Best(reg, p))
  {
    forall x | x in reg
      ensures Admits(x.key, p) <==> Meets(MatchOf(x.key), x.key, p)
    {
      MeetsAdmits(MatchOf(x.key), x.key, p);
    }
    if Best(reg, p).Some? {
      var m := BestLevel(reg, p);
      var i := NewestAt(reg, m, p);
      MeetsAdmits(m, reg[i].key, p);
      forall j | 0 <= j < |reg| && Admits(reg[j].key, p)
        ensures Weight(reg[j].key) <= Weight(reg[i].key) && (j < i ==> Weight(reg[j].key) < Weight(reg[i].key))
      {
        MeetsAdmits(MatchOf(reg[j].key), reg[j].key, p);
        assert reg[j] in reg;
        SameRank(m, MatchOf(reg[j].key));
      }
      assert Chosen(reg, p, i);
    }
  }

  lemma SameRank(m: Match, n: Match)
    ensures Rank(m) == Rank(n) ==> m == n
  {}

  /** The level at which the scan ends. */
  lemma BestLevel(reg: seq<Reg>, p: Key) returns (m: Match)
    requires Best(reg, p).Some?
    ensures Best(reg, p) == Newest(reg, m, p)
    ensures forall x, n :: x in reg && Meets(n, x.key, p) ==> Rank(m) <= Rank(n)
  {
    m := if Newest(reg, Exact, p).Some? then Exact else if Newest(reg, AddrPort, p).Some? then AddrPort
         else if Newest(reg, Port, p).Some? then Port
         else if Newest(reg, OnlyAddr, p).Some? then OnlyAddr else Any;
    forall x, n | x in reg && Meets(n, x.key, p)
      ensures Rank(m) <= Rank(n)
    {
      assert Newest(reg, n, p).Some?;
    }
  }

  function Rank(m: Match): nat {
    match m case Exact => 0 case AddrPort => 1 case Port => 2 case OnlyAddr => 3 case Any => 4
  }

  /** Nothing registered is met at a better level than m. */
  ghost predicate NoneBetter(reg: seq<Reg>, p: Key, m: Match) {
    forall y, n :: y in reg && Meets(n, y.key, p) ==> Rank(m) <= Rank(n)
  }

  /** The scan finds a registration if any is met at all, and none is met at a
      better level. */
  lemma BestIsBest(reg: seq<Reg>, p: Key)
    ensures Best(reg, p).None? <==> forall x, m :: x in reg ==> !Meets(m, x.key, p)
    ensures Best(reg, p).Some? ==>
              exists x, m :: x in reg && x.c == Best(reg, p).value && Meets(m, x.key, p) && NoneBetter(reg, p, m)
  {
    if Best(reg, p).Some? {
      var m := BestLevel(reg, p);
      var i := NewestAt(reg, m, p);
      assert reg[i] in reg && reg[i].c == Best(reg, p).value && Meets(m, reg[i].key, p);
      assert NoneBetter(reg, p, m);
    }
  }
}
