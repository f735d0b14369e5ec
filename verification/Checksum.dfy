/** The Internet checksum over unaligned memory and chains of blocks. */
module Checksum {

  type Byte = x: int | 0 <= x < 0x100 witness 0
  type Ushort = x: int | 0 <= x < 0x1_0000 witness 0
  type Ulong = x: int | 0 <= x < 0x1_0000_0000 witness 0

  /** The big-endian word of two bytes. */
  function Word(hi: Byte, lo: Byte): Ushort {
    256 * (hi as int) + lo as int
  }

  // ---------------------------------------------------------------- RFC 1071

  /** 16-bit ones' complement addition: the carry goes around. */
  function OnesAdd(a: Ushort, b: Ushort): Ushort {
    if a + b > 0xffff then a + b - 0xffff else a + b
  }

  /** The ones' complement sum of the big-endian words of d, the last byte of an
      odd number padded with zero (section 1 of RFC 1071). */
  function RfcSum(d: seq<Byte>): Ushort {
    if d == [] then 0
    else if |d| == 1 then Word(d[0], 0)
    else OnesAdd(RfcSum(d[2..]), Word(d[0], d[1]))
  }

  // ---------------------------------------------------------------- arithmetic

  /** n with its carries added back in until it fits 16 bits; 0 only for 0. */
  function Canon(n: nat): Ushort {
    if n <= 0xffff then n else Canon(n - 0xffff)
  }

  lemma {:induction false} CanonPlus(a: nat, k: nat)
    requires a > 0
    ensures Canon(a + 0xffff * k) == Canon(a)
  {
    if k > 0 {
      CanonPlus(a, k - 1);
    }
  }

  lemma {:induction false} CanonIs(n: nat) returns (k: nat)
    ensures n == Canon(n) + 0xffff * k
    ensures n > 0 ==> Canon(n) > 0
  {
    k := 0;
    if n > 0xffff {
      k := CanonIs(n - 0xffff);
      k := k + 1;
    }
  }

  lemma CanonAdd(a: nat, b: nat)
    ensures Canon(a + b) == Canon(Canon(a) + b)
  {
    var k := CanonIs(a);
    if a > 0 {
      CanonPlus(Canon(a) + b, k);
    }
  }

  lemma CanonOnes(a: nat, b: Ushort)
    ensures OnesAdd(Canon(a), b) == Canon(a + b)
  {
    CanonAdd(a, b);
    if Canon(a) + b > 0xffff {
      CanonPlus(Canon(a) + b - 0xffff, 1);
    }
  }

  /** One turn of the carry loop. */
  lemma CanonFold(n: nat)
    ensures Canon(n / 0x1_0000 + n % 0x1_0000) == Canon(n)
  {
    if n > 0 {
      CanonPlus(n / 0x1_0000 + n % 0x1_0000, n / 0x1_0000);
    }
  }

  /** Adding hi with its bytes swapped is adding it 256 times. */
  lemma CanonSwap(lo: nat, hi: nat)
    ensures Canon(lo + hi / 256 + hi % 256 * 256) == Canon(lo + 256 * hi)
  {
    if lo + hi > 0 {
      CanonPlus(lo + hi / 256 + hi % 256 * 256, hi / 256);
    }
  }

  // ---------------------------------------------------------------- byte sums

  /** The sums of the bytes at even and at odd positions. */
  function Even(d: seq<Byte>): nat
    decreases |d|
  {
    if d == [] then 0 else d[0] + Odd(d[1..])
  }

  function Odd(d: seq<Byte>): nat
    decreases |d|
  {
    if d == [] then 0 else Even(d[1..])
  }

  lemma {:induction false} RfcSumCanon(d: seq<Byte>)
    ensures RfcSum(d) == Canon(256 * Even(d) + Odd(d))
  {
    if |d| == 1 {
      assert d[1..] == [];
    } else if |d| > 1 {
      RfcSumCanon(d[2..]);
      assert d[1..][1..] == d[2..];
      CanonOnes(256 * Even(d[2..]) + Odd(d[2..]), Word(d[0], d[1]));
    }
  }

  lemma {:induction false} SumsConcat(a: seq<Byte>, b: seq<Byte>)
    ensures Even(a + b) == Even(a) + if |a| % 2 == 0 then Even(b) else Odd(b)
    ensures Odd(a + b) == Odd(a) + if |a| % 2 == 0 then Odd(b) else Even(b)
  {
    if a == [] {
      assert a + b == b;
    } else {
      assert (a + b)[1..] == a[1..] + b;
      SumsConcat(a[1..], b);
    }
  }

  lemma {:induction false} SumsBound(d: seq<Byte>)
    ensures Even(d) <= 255 * ((|d| + 1) / 2) && Odd(d) <= 255 * (|d| / 2)
  {
    if d != [] {
      SumsBound(d[1..]);
    }
  }

  // ---------------------------------------------------------------- ptclbsum

  /** *(ushort*)(addr+p) */
  function Load(addr: seq<Byte>, p: nat, little: bool): Ushort
    requires p + 2 <= |addr|
  {
    if little then Word(addr[p + 1], addr[p]) else Word(addr[p], addr[p + 1])
  }

  /** What the loads of k words from start on add up to. */
  ghost function Loaded(addr: seq<Byte>, start: nat, k: nat, little: bool): nat
    requires start + 2 * k <= |addr|
  {
    if k == 0 then 0 else Loaded(addr, start, k - 1, little) + Load(addr, start + 2 * k - 2, little)
  }

  lemma {:induction false} LoadedBound(addr: seq<Byte>, start: nat, k: nat, little: bool)
    requires start + 2 * k <= |addr|
    ensures Loaded(addr, start, k, little) <= 0xffff * k
  {
    if k > 0 {
      LoadedBound(addr, start, k - 1, little);
    }
  }

  lemma {:induction false} LoadedSums(addr: seq<Byte>, start: nat, k: nat, little: bool)
    requires start + 2 * k <= |addr|
    ensures var d := addr[start..start + 2 * k];
            Loaded(addr, start, k, little) == if little then Even(d) + 256 * Odd(d) else 256 * Even(d) + Odd(d)
  {
    if k > 0 {
      LoadedSums(addr, start, k - 1, little);
      var p := start + 2 * k;
      assert addr[start..p] == addr[start..p - 2] + [addr[p - 2], addr[p - 1]];
      SumsConcat(addr[start..p - 2], [addr[p - 2], addr[p - 1]]);
      TwoBytes(addr[p - 2], addr[p - 1]);
    }
  }

  /** The body of the unrolled loop: eight loads, each added one load late. */
  method AddEight(addr: seq<Byte>, ghost start: nat, ghost k: nat, p: nat, little: bool, sum: Ulong)
      returns (mdsum: Ulong)
    requires p == start + 2 * k && p + 16 <= |addr| <= 0x1_0000 && sum == Loaded(addr, start, k, little)
    ensures mdsum == Loaded(addr, start, k + 8, little)
  {
    var t1, t2;
    mdsum, t1, t2 := AddThree(addr, start, k, p, little, sum);
    LoadedBound(addr, start, k + 8, little);
    LoadedFive(addr, start, k + 3, little);
    mdsum := mdsum + t2;
    t2 := Load(addr, p + 10, little);
    mdsum := mdsum + t1;
    t1 := Load(addr, p + 12, little);
    mdsum := mdsum + t2;
    t2 := Load(addr, p + 14, little);
    mdsum := mdsum + t1;
    mdsum := mdsum + t2;
  }

  /** Its first five loads, three of them added. */
  method AddThree(addr: seq<Byte>, ghost start: nat, ghost k: nat, p: nat, little: bool, sum: Ulong)
      returns (mdsum: Ulong, t1: Ushort, t2: Ushort)
    requires p == start + 2 * k && p + 10 <= |addr| <= 0x1_0000 && sum == Loaded(addr, start, k, little)
    ensures mdsum == Loaded(addr, start, k + 3, little)
    ensures t2 == Load(addr, p + 6, little) && t1 == Load(addr, p + 8, little)
  {
    LoadedBound(addr, start, k + 3, little);
    LoadedThree(addr, start, k, little);
    mdsum := sum;
    t1, t2 := Load(addr, p, little), Load(addr, p + 2, little);
    mdsum := mdsum + t1;
    t1 := Load(addr, p + 4, little);
    mdsum := mdsum + t2;
    t2 := Load(addr, p + 6, little);
    mdsum := mdsum + t1;
    t1 := Load(addr, p + 8, little);
  }

  lemma LoadedThree(addr: seq<Byte>, start: nat, k: nat, little: bool)
    requires start + 2 * k + 6 <= |addr|
    ensures var p := start + 2 * k;
            Loaded(addr, start, k + 3, little)
              == Loaded(addr, start, k, little) + Load(addr, p, little) + Load(addr, p + 2, little)
                 + Load(addr, p + 4, little)
  {
    var p := start + 2 * k;
    assert Loaded(addr, start, k + 2, little)
        == Loaded(addr, start, k, little) + Load(addr, p, little) + Load(addr, p + 2, little);
  }

  lemma LoadedFive(addr: seq<Byte>, start: nat, k: nat, little: bool)
    requires start + 2 * k + 10 <= |addr|
    ensures var p := start + 2 * k;
            Loaded(addr, start, k + 5, little)
              == Loaded(addr, start, k, little) + Load(addr, p, little) + Load(addr, p + 2, little)
                 + Load(addr, p + 4, little)
                 + Load(addr, p + 6, little) + Load(addr, p + 8, little)
  {
    var p := start + 2 * k;
    LoadedThree(addr, start, k, little);
    assert Loaded(addr, start, k + 4, little) == Loaded(addr, start, k + 3, little) + Load(addr, p + 6, little);
  }

  /** The last lines of ptclbsum and ptclcsum: swap hisum in and fold the carries. */
  method Fold(lo: Ulong, hisum: Ulong) returns (r: Ushort)
    requires lo + hisum / 256 + 255 * 256 < 0x1_0000_0000
    ensures r == Canon(lo + 256 * hisum)
  {
    var losum: Ulong := lo + hisum / 256;
    losum := losum + hisum % 256 * 256;
    CanonSwap(lo, hisum);
    while losum / 0x1_0000 != 0
      invariant Canon(losum) == Canon(lo + 256 * hisum)
      decreases losum
    {
      CanonFold(losum);
      losum := losum / 0x1_0000 + losum % 0x1_0000;
    }
    r := losum;
  }

  /** An odd first byte, a body of k words, and a byte left over. */
  lemma PartSums(addr: seq<Byte>, start: nat, k: nat)
    requires start <= 1 && start + 2 * k <= |addr| <= start + 2 * k + 1
    ensures var p := start + 2 * k;
            var body := addr[start..p];
            var last: nat := if p < |addr| then addr[p] else 0;
            if start == 1 then Even(addr) == addr[0] + Odd(body) && Odd(addr) == Even(body) + last
            else Even(addr) == Even(body) + last && Odd(addr) == Odd(body)
  {
    var p := start + 2 * k;
    SumsConcat(addr[start..p], addr[p..]);
    ShortSums(addr[p..]);
    assert addr[start..] == addr[start..p] + addr[p..];
    if start == 0 {
      assert addr[0..] == addr;
    }
  }

  lemma ShortSums(d: seq<Byte>)
    requires |d| <= 1
    ensures Odd(d) == 0 && Even(d) == if d == [] then 0 else d[0]
  {
    if d != [] {
      assert d[1..] == [];
    }
  }

  /** What the bytes weigh: the sum of their big-endian words. */
  ghost function Weight(d: seq<Byte>): nat {
    256 * Even(d) + Odd(d)
  }

  /** Bytes at odd addresses count in the low half and the others in the high
      half, whatever way round the host loads words. */
  lemma BsumMeaning(addr: seq<Byte>, start: nat, k: nat, little: bool, losum: nat, hisum: nat)
    requires start <= 1 && start + 2 * k <= |addr| <= start + 2 * k + 1
    requires var md := Loaded(addr, start, k, little);
             var p := start + 2 * k;
             var last: nat := if p < |addr| then addr[p] else 0;
             if start == 1
             then losum == last + (if little then md else 0) && hisum == addr[0] + (if little then 0 else md)
             else hisum == last + (if little then md else 0) && losum == (if little then 0 else md)
    ensures Canon(losum + 256 * hisum) == RfcSum(addr)
  {
    RfcSumCanon(addr);
    var body := addr[start..start + 2 * k];
    var n := if start == 1 then (if little then 0 else Even(body)) else if little then Odd(body) else 0;
    BsumParts(addr, start, k, little, losum, hisum, n);
    if Weight(addr) > 0 {
      CanonPlus(Weight(addr), n);
    }
  }

  lemma BsumParts(addr: seq<Byte>, start: nat, k: nat, little: bool, losum: nat, hisum: nat, n: nat)
    requires start <= 1 && start + 2 * k <= |addr| <= start + 2 * k + 1
    requires var md := Loaded(addr, start, k, little);
             var p := start + 2 * k;
             var last: nat := if p < |addr| then addr[p] else 0;
             if start == 1
             then losum == last + (if little then md else 0) && hisum == addr[0] + (if little then 0 else md)
             else hisum == last + (if little then md else 0) && losum == (if little then 0 else md)
    requires var body := addr[start..start + 2 * k];
             n == if start == 1 then (if little then 0 else Even(body)) else if little then Odd(body) else 0
    ensures losum + 256 * hisum == Weight(addr) + 0xffff * n && (Weight(addr) == 0 ==> n == 0)
  {
    LoadedSums(addr, start, k, little);
    PartSums(addr, start, k);
  }

  /** Its two loops over whole words, from p on. */
  method SumWords(addr: seq<Byte>, from: nat, length: nat, little: bool)
      returns (mdsum: Ulong, p: nat, len: nat, ghost k: nat)
    requires from + length == |addr| <= 0x1_0000
    ensures p + len == |addr| && len < 2 && p == from + 2 * k && mdsum == Loaded(addr, from, k, little)
  {
    mdsum, p, len, k := 0, from, length, 0;
    while len >= 16
      invariant p + len == |addr| && p == from + 2 * k && mdsum == Loaded(addr, from, k, little)
    {
      mdsum := AddEight(addr, from, k, p, little, mdsum);
      len := len - 16;
      p := p + 16;
      k := k + 8;
    }
    while len >= 2
      invariant p + len == |addr| && p == from + 2 * k && mdsum == Loaded(addr, from, k, little)
    {
      LoadedBound(addr, from, k + 1, little);
      mdsum := mdsum + Load(addr, p, little);
      len := len - 2;
      p := p + 2;
      k := k + 1;
    }
  }

  /** ptclbsum over the bytes of addr, which start at an odd address or not, on a
      little- or big-endian host: the sum of RFC 1071, with no accumulator
      exceeding 32 bits. */
  method Ptclbsum(addr: seq<Byte>, odd: bool, little: bool) returns (r: Ushort)
    requires |addr| <= 0x1_0000
    ensures r == RfcSum(addr)
  {
    var losum: Ulong, hisum: Ulong, mdsum: Ulong := 0, 0, 0;
    var len: nat, p: nat, x := |addr|, 0, false;
    if odd {
      if len > 0 {
        hisum := hisum + addr[0];
        len := len - 1;
        p := 1;
      }
      x := true;
    }
    ghost var start, k: nat := p, 0;
    mdsum, p, len, k := SumWords(addr, p, len, little);
    LoadedBound(addr, start, k, little);
    if x {
      if len > 0 {
        losum := losum + addr[p];
      }
      if little {
        losum := losum + mdsum;
      } else {
        hisum := hisum + mdsum;
      }
    } else {
      if len > 0 {
        hisum := hisum + addr[p];
      }
      if little {
        hisum := hisum + mdsum;
      } else {
        losum := losum + mdsum;
      }
    }
    BsumMeaning(addr, start, k, little, losum, hisum);
    r := Fold(losum, hisum);
  }

  // ---------------------------------------------------------------- ptclcsum

  /** A block of a chain: its bytes, and whether they start at an odd address. */
  datatype Block = Block(data: seq<Byte>, odd: bool)

  function Flat(bps: seq<Block>): seq<Byte> {
    if bps == [] then [] else bps[0].data + Flat(bps[1..])
  }

  function Take(d: seq<Byte>, n: nat): seq<Byte> {
    if n <= |d| then d[..n] else d
  }

  /** Skip whole blocks while offset reaches past them. */
  function Skip(bps: seq<Block>, offset: nat): (r: (seq<Block>, nat))
    ensures r.0 != [] ==> r.1 <= |r.0[0].data|
  {
    if bps == [] || offset == 0 || offset < |bps[0].data| then (bps, offset)
    else Skip(bps[1..], offset - |bps[0].data|)
  }

  lemma {:induction false} SkipDrops(bps: seq<Block>, offset: nat)
    ensures var (rest, o) := Skip(bps, offset);
            && (offset <= |Flat(bps)| ==> o <= |Flat(rest)| && Flat(rest)[o..] == Flat(bps)[offset..])
            && (offset < |Flat(bps)| ==> rest != [])
            && (offset > |Flat(bps)| ==> rest == [])
  {
    if !(bps == [] || offset == 0 || offset < |bps[0].data|) {
      var n := |bps[0].data|;
      SkipDrops(bps[1..], offset - n);
      if offset <= |Flat(bps)| {
        assert Flat(bps)[offset..] == Flat(bps[1..])[offset - n..];
      }
    }
  }

  lemma CanonTimes(a: nat, b: nat)
    ensures Canon(a + 256 * Canon(b)) == Canon(a + 256 * b)
  {
    var k := CanonIs(b);
    if a + b > 0 {
      CanonPlus(a + 256 * Canon(b), 256 * k);
    }
  }

  lemma CanonAtMost(n: nat)
    ensures Canon(n) <= n
  {
    var k := CanonIs(n);
  }

  lemma AddAligned(s: nat, w: nat, x: nat)
    requires Canon(s) == Canon(w)
    ensures Canon(s + Canon(x)) == Canon(w + x)
  {
    CanonAdd(s, Canon(x));
    CanonAdd(w, Canon(x));
    CanonAdd(x, w);
  }

  lemma AddSwapped(s: nat, w: nat, even: nat, odd: nat)
    requires Canon(s) == Canon(w)
    ensures Canon(s + 256 * Canon(256 * even + odd)) == Canon(w + even + 256 * odd)
  {
    CanonTimes(s, 256 * even + odd);
    CanonAdd(s, 0x1_0000 * even + 256 * odd);
    CanonAdd(w, 0x1_0000 * even + 256 * odd);
    if w + even + odd > 0 {
      CanonPlus(w + even + 256 * odd, even);
    }
  }

  lemma SumAtMost(c: seq<Byte>)
    ensures RfcSum(c) <= 0xff00 * |c|
  {
    RfcSumCanon(c);
    SumsBound(c);
    CanonAtMost(Weight(c));
  }

  lemma WeightConcat(a: seq<Byte>, b: seq<Byte>)
    ensures Weight(a + b) == Weight(a) + if |a| % 2 == 0 then Weight(b) else Even(b) + 256 * Odd(b)
  {
    SumsConcat(a, b);
  }

  /** Adding the sum of the next block, which starts at an odd offset or not. */
  lemma NextBlock(done: seq<Byte>, c: seq<Byte>, losum: nat, hisum: nat)
    requires Canon(losum + 256 * hisum) == Canon(Weight(done))
    ensures |done| % 2 == 0 ==> Canon(losum + RfcSum(c) + 256 * hisum) == Canon(Weight(done + c))
    ensures |done| % 2 == 1 ==> Canon(losum + 256 * (hisum + RfcSum(c))) == Canon(Weight(done + c))
  {
    RfcSumCanon(c);
    WeightConcat(done, c);
    var s := losum + 256 * hisum;
    if |done| % 2 == 0 {
      AddAligned(s, Weight(done), Weight(c));
    } else {
      AddSwapped(s, Weight(done), Even(c), Odd(c));
      assert losum + 256 * (hisum + RfcSum(c)) == s + 256 * RfcSum(c);
    }
  }

  /** ptclcsum over a chain of blocks at any addresses: the complement of the sum
      of RFC 1071 over the bytes from offset on, at most len of them, and 0 when
      the chain ends at or before offset. */
  method Ptclcsum(bps: seq<Block>, offset: nat, len: nat, little: bool) returns (r: Ushort)
    requires len <= 0x1_0000
    ensures var (rest, o) := Skip(bps, offset);
            r == if rest == [] then 0 else 0xffff - RfcSum(Take(Flat(rest)[o..], len))
  {
    var bp, off: nat := bps, offset;
    while bp != [] && off != 0 && off >= |bp[0].data|
      invariant Skip(bp, off) == Skip(bps, offset)
      decreases |bp|
    {
      off := off - |bp[0].data|;
      bp := bp[1..];
    }
    if bp == [] {
      return 0;
    }
    var addr, parity := bp[0].data[off..], (bp[0].odd != (off % 2 == 1));
    assert Flat(bp)[off..] == addr + Flat(bp[1..]);
    if |bp| == 1 {
      assert Flat(bp[1..]) == [] && addr + [] == addr;
      var csum := Ptclbsum(Take(addr, len), parity, little);
      return 0xffff - csum;
    }
    r := SumChain(addr, parity, bp[1..], len, little);
  }

  lemma TakeStep(addr: seq<Byte>, tail: seq<Byte>, len: nat)
    ensures var c := Take(addr, len);
            |c| <= len && Take(addr + tail, len) == c + Take(tail, len - |c|)
  {
    if len > |addr| {
      assert Take(addr + tail, len) == addr + Take(tail, len - |addr|);
    } else {
      assert Take(tail, 0) == [] && (addr + tail)[..len] == addr[..len];
    }
  }

  /** What the accumulators hold after the bytes done. */
  ghost predicate Sums(losum: nat, hisum: nat, done: seq<Byte>) {
    Canon(losum + 256 * hisum) == Canon(Weight(done)) && losum + hisum <= 0xff00 * |done|
  }

  /** Sum the bytes c of one block into the accumulators. */
  method AddBlock(c: seq<Byte>, parity: bool, little: bool, lo: Ulong, hi: Ulong, odd: bool, ghost done: seq<Byte>)
      returns (losum: Ulong, hisum: Ulong, odd': bool)
    requires Sums(lo, hi, done) && odd == (|done| % 2 == 1) && |done| + |c| <= 0x1_0000
    ensures Sums(losum, hisum, done + c) && odd' == (|done + c| % 2 == 1)
  {
    var csum := Ptclbsum(c, parity, little);
    NextBlock(done, c, lo, hi);
    SumAtMost(c);
    losum, hisum := lo, hi;
    if odd {
      hisum := hisum + csum;
    } else {
      losum := losum + csum;
    }
    odd' := odd != (|c| % 2 == 1);
  }

  lemma SumsFinal(losum: nat, hisum: nat, done: seq<Byte>)
    requires Sums(losum, hisum, done) && |done| <= 0x1_0000
    ensures losum + hisum / 256 + 255 * 256 < 0x1_0000_0000 && Canon(losum + 256 * hisum) == RfcSum(done)
  {
    RfcSumCanon(done);
  }

  /** The loop of ptclcsum over the remaining blocks, the first already entered. */
  method SumChain(first: seq<Byte>, odd1: bool, rest: seq<Block>, length: nat, little: bool) returns (r: Ushort)
    requires length <= 0x1_0000
    ensures r == 0xffff - RfcSum(Take(first + Flat(rest), length))
  {
    var losum: Ulong, hisum: Ulong := 0, 0;
    var addr, parity, bp, len: nat := first, odd1, rest, length;
    var odd := false;
    ghost var whole := Take(first + Flat(rest), length);
    ghost var done: seq<Byte> := [];
    while len > 0
      invariant whole == done + Take(addr + Flat(bp), len) && |done| + len == length
      invariant odd == (|done| % 2 == 1) && Sums(losum, hisum, done)
      decreases |bp|
    {
      var c := Take(addr, len);
      TakeStep(addr, Flat(bp), len);
      losum, hisum, odd := AddBlock(c, parity, little, losum, hisum, odd, done);
      len := len - |c|;
      assert whole == (done + c) + Take(Flat(bp), len);
      done := done + c;
      if bp == [] {
        break;
      }
      addr, parity := bp[0].data, bp[0].odd;
      bp := bp[1..];
    }
    assert whole == done;
    SumsFinal(losum, hisum, done);
    r := Fold(losum, hisum);
    r := 0xffff - r;
  }

  // ---------------------------------------------------------------- ipcsum and the recheck

  /** ipcsum over a header whose length is in its first byte. */
  method Ipcsum(addr: seq<Byte>) returns (r: Ushort)
    requires |addr| > 0 && |addr| >= addr[0] % 16 * 4
    ensures r == 0xffff - RfcSum(addr[..addr[0] % 16 * 4])
  {
    var len: nat := addr[0] % 16 * 4;
    var sum := HeaderSum(addr[..len]);
    RfcSumCanon(addr[..len]);
    TwoFolds(sum);
    sum := sum % 0x1_0000 + sum / 0x1_0000;
    sum := sum % 0x1_0000 + sum / 0x1_0000;
    r := 0xffff - sum;
  }

  /** Its loop, over the bytes d of the header. */
  method HeaderSum(d: seq<Byte>) returns (sum: Ulong)
    requires |d| <= 60 && |d| % 2 == 0
    ensures sum == Weight(d) && sum <= 0x8000 * 60
  {
    sum := 0;
    var p: nat, len: nat := 0, |d|;
    while len > 0
      invariant p + len == |d| && len % 2 == 0 && p % 2 == 0
      invariant sum == Weight(d[..p]) && sum <= 0x8000 * p
    {
      WeightWord(d, p);
      sum := sum + Word(d[p], d[p + 1]);
      len := len - 2;
      p := p + 2;
    }
    assert d[..p] == d;
  }

  /** Two folds are enough for the sum of a header. */
  lemma TwoFolds(sum: nat)
    requires sum <= 0x8000 * 60
    ensures var once := sum % 0x1_0000 + sum / 0x1_0000;
            once % 0x1_0000 + once / 0x1_0000 == Canon(sum)
  {
    CanonFold(sum);
    CanonFold(sum % 0x1_0000 + sum / 0x1_0000);
  }

  lemma WeightWord(d: seq<Byte>, p: nat)
    requires p + 2 <= |d| && p % 2 == 0
    ensures Weight(d[..p + 2]) == Weight(d[..p]) + Word(d[p], d[p + 1])
  {
    assert d[..p + 2] == d[..p] + [d[p], d[p + 1]];
    SumsConcat(d[..p], [d[p], d[p + 1]]);
    TwoBytes(d[p], d[p + 1]);
  }

  lemma TwoBytes(a: Byte, b: Byte)
    ensures Even([a, b]) == a && Odd([a, b]) == b
  {
    assert [a, b][1..] == [b] && [b][1..] == [];
    assert Even([b]) == b && Odd([b]) == 0;
  }

  lemma AddComplement(w: nat)
    ensures Canon(w + (0xffff - Canon(w))) == 0xffff
  {
    var k := CanonIs(w);
    if w > 0 {
      CanonPlus(0xffff, k);
    }
  }

  /** A message whose checksum field, two zero bytes at an even offset, receives
      the complement of the sum checks to zero. */
  lemma RecheckZero(m: seq<Byte>, k: nat, c: Ushort)
    requires k + 2 <= |m| && k % 2 == 0 && m[k] == 0 && m[k + 1] == 0
    requires c == 0xffff - RfcSum(m)
    ensures 0xffff - RfcSum(m[k := c / 256][k + 1 := c % 256]) == 0
  {
    var hi: Byte, lo: Byte := c / 256, c % 256;
    WeightField(m, k, 0, 0);
    WeightField(m, k, hi, lo);
    assert m[k := 0][k + 1 := 0] == m;
    var z := m[k := hi][k + 1 := lo];
    assert Weight(z) == Weight(m) + c;
    RfcSumCanon(m);
    RfcSumCanon(z);
    AddComplement(Weight(m));
  }

  lemma WeightField(m: seq<Byte>, k: nat, hi: Byte, lo: Byte)
    requires k + 2 <= |m| && k % 2 == 0
    ensures Weight(m[k := hi][k + 1 := lo]) == Weight(m[..k]) + Word(hi, lo) + Weight(m[k + 2..])
  {
    var a, b := m[..k], m[k + 2..];
    assert m[k := hi][k + 1 := lo] == a + ([hi, lo] + b);
    SumsConcat(a, [hi, lo] + b);
    SumsConcat([hi, lo], b);
    TwoBytes(hi, lo);
  }

  /** A received message checks to zero exactly when its words add up to a nonzero
      multiple of 65535. */
  lemma CheckMeaning(m: seq<Byte>)
    ensures 0xffff - RfcSum(m) == 0 <==> Weight(m) > 0 && Weight(m) % 0xffff == 0
  {
    RfcSumCanon(m);
    CanonAllOnes(Weight(m));
  }

  lemma {:induction false} CanonAllOnes(n: nat)
    ensures Canon(n) == 0xffff <==> n > 0 && n % 0xffff == 0
  {
    if n > 0xffff {
      CanonAllOnes(n - 0xffff);
      assert n % 0xffff == (n - 0xffff) % 0xffff;
    }
  }
}
