/** 32-bit sequence numbers and the trimming of a segment to the receive window. */
module TcpSegment {
  import opened Wrappers

  const M := 0x1_0000_0000
  const HALF := 0x8000_0000

  /** A 32-bit unsigned difference. */
  function Sub(x: int, y: int): nat {
    (x - y) % M
  }

  /** The same difference read as a signed 32-bit number. */
  function Signed(x: int, y: int): int {
    if Sub(x, y) < HALF then Sub(x, y) else Sub(x, y) - M
  }

  predicate SeqWithin(x: nat, low: nat, high: nat) {
    if low <= high then low <= x <= high else x >= low || x <= high
  }

  predicate SeqLt(x: nat, y: nat) { Signed(x, y) < 0 }
  predicate SeqLe(x: nat, y: nat) { Signed(x, y) <= 0 }
  predicate SeqGt(x: nat, y: nat) { Signed(x, y) > 0 }
  predicate SeqGe(x: nat, y: nat) { Signed(x, y) >= 0 }

  lemma ModStep(x: int, k: int)
    ensures (x + k * M) % M == x % M
  {}

  /** The modular distance of two numbers is the remainder of their true distance. */
  lemma SubOfRemainders(p: int, q: int)
    ensures Sub(p % M, q % M) == (p - q) % M
  {
    var k := p / M - q / M;
    assert p - q == p % M - q % M + k * M;
    ModStep(p % M - q % M, k);
  }

  /** Circular betweenness is a comparison of modular distances. */
  lemma SeqWithinIsDistance(x: nat, low: nat, high: nat)
    requires x < M && low < M && high < M
    ensures SeqWithin(x, low, high) <==> Sub(x, low) <= Sub(high, low)
  {}

  /** For positions less than half the number space apart, the signed comparison
      of their sequence numbers is the true comparison. */
  lemma SignedIsDistance(p: int, q: int)
    requires -HALF <= p - q < HALF
    ensures Signed(p % M, q % M) == p - q
  {
    SubOfRemainders(p, q);
  }

  /** seq_lt, seq_le, seq_gt and seq_ge order such positions. */
  lemma ComparisonsAreTrue(p: int, q: int)
    requires -HALF <= p - q < HALF
    ensures SeqLt(p % M, q % M) <==> p < q
    ensures SeqLe(p % M, q % M) <==> p <= q
    ensures SeqGt(p % M, q % M) <==> p > q
    ensures SeqGe(p % M, q % M) <==> p >= q
  {
    SignedIsDistance(p, q);
  }

  // ---------------------------------------------------------------- segments

  type Bytes = seq<bv8>

  datatype Seg = Seg(seqno: nat, data: Bytes, syn: bool, fin: bool, rst: bool, ack: bool)

  /** Sequence numbers the segment takes up, in the 16 bits the code keeps. */
  function SeqLength(s: Seg): nat {
    (|s.data| + (if s.syn then 1 else 0) + (if s.fin then 1 else 0)) % 0x1_0000
  }

  predicate InWindow(nxt: nat, wnd: nat, x: nat) {
    SeqWithin(x, nxt, (nxt + wnd - 1) % M)
  }

  predicate Acceptable(nxt: nat, wnd: nat, s: Seg) {
    var len := SeqLength(s);
    InWindow(nxt, wnd, s.seqno)
    || (len != 0 && (InWindow(nxt, wnd, (s.seqno + len - 1) % M)
                     || SeqWithin(nxt, s.seqno, (s.seqno + len - 1) % M)))
  }

  /** Drop the first n bytes; pullblock stops at the end of the data. */
  function DropFront(d: Bytes, n: int): Bytes {
    if n <= 0 then d else if n >= |d| then [] else d[n..]
  }

  /** Keep the first n bytes. */
  function KeepFront(d: Bytes, n: int): Bytes {
    if n >= |d| then d else if n <= 0 then [] else d[..n]
  }

  /** The duplicate part in front of the window is dropped, a SYN first. */
  function TrimLeft(nxt: nat, s: Seg): Seg {
    var dup := Signed(nxt, s.seqno);
    if dup <= 0 then s
    else
      var t, d := if s.syn then s.(syn := false, seqno := (s.seqno + 1) % M) else s,
                  if s.syn then dup - 1 else dup;
      if d <= 0 then t else t.(seqno := (t.seqno + d) % M, data := DropFront(t.data, d))
  }

  /** What lies beyond the window is dropped, a FIN with it. */
  function TrimRight(nxt: nat, wnd: nat, s: Seg): Seg {
    var excess := Signed((s.seqno + |s.data|) % M, (nxt + wnd) % M);
    if excess <= 0 then s else s.(data := KeepFront(s.data, |s.data| - excess), fin := false)
  }

  /** tcptrim: None when the segment is refused. */
  function Trim(nxt: nat, wnd: nat, s: Seg): Option<Seg> {
    if wnd == 0 then
      if SeqLength(s) == 0 && s.seqno == nxt then Some(s) else None
    else if Acceptable(nxt, wnd, s) then Some(TrimRight(nxt, wnd, TrimLeft(nxt, s)))
    else None
  }

  // ---------------------------------------------------------------- exactness

  /** Sequence numbers a segment without SYN takes up. */
  function Span(s: Seg): nat {
    |s.data| + (if s.fin then 1 else 0)
  }

  /** s stands at position p of the number line and fits a packet. */
  ghost predicate At(s: Seg, p: int) {
    s.seqno == p % M && !s.syn && |s.data| < 0xffff
  }

  /** The segment and the window [r, r + wnd) have a position in common; an
      empty segment only has to stand in the window, or at r when it is shut. */
  predicate Meets(r: int, wnd: nat, p: int, span: nat) {
    if wnd == 0 then span == 0 && p == r
    else if span == 0 then r <= p < r + wnd
    else p < r + wnd && r < p + span
  }

  lemma InWindowIsDistance(n: nat, wnd: nat, y: nat)
    requires 0 < wnd <= HALF && n < M && y < M
    ensures InWindow(n, wnd, y) <==> Sub(y, n) < wnd
  {
    var h := (n + wnd - 1) % M;
    SeqWithinIsDistance(y, n, h);
    assert Sub(h, n) == wnd - 1;
  }

  lemma InWindowIsTrue(r: int, wnd: nat, x: int)
    requires 0 < wnd <= HALF && -HALF < x - r < HALF + 0x1_0000
    ensures InWindow(r % M, wnd, x % M) <==> r <= x < r + wnd
  {
    InWindowIsDistance(r % M, wnd, x % M);
    SubOfRemainders(x, r);
  }

  lemma AddMod(p: int, n: int)
    ensures (p % M + n) % M == (p + n) % M
  {
    ModStep(p % M + n, p / M);
  }

  /** The last position of a segment, and the window's first position against it. */
  lemma EndInWindow(r: int, wnd: nat, p: int, len: nat)
    requires -HALF < p - r < HALF && 0 < wnd < HALF && 0 < len < 0x1_0000
    ensures var e := (p % M + len - 1) % M;
            && (InWindow(r % M, wnd, e) <==> r <= p + len - 1 < r + wnd)
            && (SeqWithin(r % M, p % M, e) <==> p <= r < p + len)
  {
    AddMod(p, len - 1);
    InWindowIsTrue(r, wnd, p + len - 1);
    InWindowIsTrue(p, len, r);
    assert (p % M + len - 1) % M == (p + len - 1) % M;
  }

  lemma AcceptableIffMeets(r: int, wnd: nat, p: int, s: Seg)
    requires At(s, p) && -HALF < p - r < HALF && 0 < wnd < HALF
    ensures Acceptable(r % M, wnd, s) <==> Meets(r, wnd, p, Span(s))
  {
    assert SeqLength(s) == Span(s);
    InWindowIsTrue(r, wnd, p);
    if Span(s) > 0 {
      EndInWindow(r, wnd, p, Span(s));
    }
  }

  /** Acceptance is exactly meeting the window. */
  lemma AcceptedIffMeets(r: int, wnd: nat, p: int, s: Seg)
    requires At(s, p) && -HALF < p - r < HALF && wnd < HALF
    ensures Trim(r % M, wnd, s).Some? <==> Meets(r, wnd, p, Span(s))
  {
    if wnd > 0 {
      AcceptableIffMeets(r, wnd, p, s);
    } else {
      SignedIsDistance(p, r);
    }
  }

  function Larger(a: int, b: int): int {
    if a < b then b else a
  }

  function Smaller(a: int, b: int): int {
    if a < b then a else b
  }

  /** t is what an open window [r, r + wnd) lets through of s standing at p:
      exactly the bytes whose positions lie in the window, each at its position;
      the first position moves to the window's left edge if it was before it; the
      FIN survives unless bytes were cut off in front of it. */
  ghost predicate Trimmed(s: Seg, t: Seg, p: int, r: int, wnd: nat) {
    var q := Larger(p, r);
    At(t, q) && Kept(s, t, p, q, r + wnd)
  }

  /** Of s standing at p, t keeps what lies in [q, end). */
  ghost predicate Kept(s: Seg, t: Seg, p: int, q: int, end: int)
    requires p <= q
  {
    && t.ack == s.ack && t.rst == s.rst
    && |t.data| == Larger(0, Smaller(p + |s.data|, end) - q)
    && q - p + |t.data| <= Larger(q - p, |s.data|)
    && (forall i :: 0 <= i < |t.data| ==> t.data[i] == s.data[q - p + i])
    && (t.fin <==> s.fin && p + |s.data| <= end)
  }

  lemma TrimLeftExact(r: int, p: int, s: Seg)
    requires At(s, p) && -HALF < p - r < HALF
    ensures var l, q := TrimLeft(r % M, s), Larger(p, r);
      At(l, q) && l == s.(seqno := l.seqno, data := DropFront(s.data, q - p))
  {
    SignedIsDistance(r, p);
    AddMod(p, r - p);
  }

  lemma TrimRightExact(r: int, wnd: nat, q: int, l: Seg)
    requires At(l, q) && r <= q <= r + wnd && wnd < HALF
    ensures TrimRight(r % M, wnd, l)
              == if q + |l.data| <= r + wnd then l else l.(data := KeepFront(l.data, r + wnd - q), fin := false)
  {
    AddMod(q, |l.data|);
    AddMod(r, wnd);
    SignedIsDistance(q + |l.data|, r + wnd);
  }

  /** e is the stretch of d from a on. */
  ghost predicate Stretch(e: Bytes, d: Bytes, a: nat) {
    a + |e| <= Larger(a, |d|) && forall i :: 0 <= i < |e| ==> e[i] == d[a + i]
  }

  lemma FrontCut(d: Bytes, a: nat)
    ensures var e := DropFront(d, a); |e| == Larger(0, |d| - a) && Stretch(e, d, a)
  {}

  lemma EndCut(d: Bytes, x: int)
    requires x > 0
    ensures var e := KeepFront(d, |d| - x); |e| == Larger(0, |d| - x) && Stretch(e, d, 0)
  {}

  lemma StretchTwice(f: Bytes, e: Bytes, d: Bytes, a: nat)
    requires Stretch(e, d, a) && Stretch(f, e, 0)
    ensures Stretch(f, d, a)
  {}

  /** A segment that meets an open window has nothing but its front before it. */
  lemma MeetsReaches(r: int, wnd: nat, p: int, s: Seg)
    requires Meets(r, wnd, p, Span(s)) && 0 < wnd
    ensures var q := Larger(p, r); 0 <= q - p <= |s.data| && q < r + wnd
  {}

  /** What is left of s when its front, up to q, and its end are cut off. */
  lemma CutBytes(d: Bytes, p: int, q: int, end: int, l: Bytes, t: Bytes)
    requires 0 <= q - p <= |d| && q < end && l == DropFront(d, q - p)
    requires t == if p + |d| <= end then l else KeepFront(l, end - q)
    ensures |l| == |d| - (q - p) && |t| == Smaller(p + |d|, end) - q && Stretch(t, d, q - p)
  {
    FrontCut(d, q - p);
    if p + |d| > end {
      EndCut(l, |l| - (end - q));
      StretchTwice(t, l, d, q - p);
    }
  }

  lemma CutKeeps(s: Seg, l: Seg, t: Seg, p: int, q: int, end: int)
    requires 0 <= q - p <= |s.data| && q < end
    requires l == s.(seqno := l.seqno, data := DropFront(s.data, q - p))
    requires t == if q + |l.data| <= end then l else l.(data := KeepFront(l.data, end - q), fin := false)
    ensures Kept(s, t, p, q, end) && t.seqno == l.seqno && t.syn == s.syn && |t.data| <= |s.data|
  {
    FrontCut(s.data, q - p);
    CutBytes(s.data, p, q, end, l.data, t.data);
  }

  lemma KeptTrimmed(s: Seg, l: Seg, t: Seg, p: int, q: int, r: int, wnd: nat)
    requires At(s, p) && At(l, q) && t.seqno == l.seqno && t.syn == s.syn && |t.data| <= |s.data|
    requires q == Larger(p, r) && Kept(s, t, p, q, r + wnd)
    ensures Trimmed(s, t, p, r, wnd)
  {}

  /** An accepted segment is trimmed exactly to the window. */
  lemma TrimExact(r: int, wnd: nat, p: int, s: Seg, t: Seg)
    requires At(s, p) && -HALF < p - r < HALF && 0 < wnd < HALF
    requires Trim(r % M, wnd, s) == Some(t)
    ensures Meets(r, wnd, p, Span(s)) && Trimmed(s, t, p, r, wnd)
  {
    AcceptedIffMeets(r, wnd, p, s);
    TrimLeftExact(r, p, s);
    var q, l := Larger(p, r), TrimLeft(r % M, s);
    MeetsReaches(r, wnd, p, s);
    TrimRightExact(r, wnd, q, l);
    CutKeeps(s, l, t, p, q, r + wnd);
    KeptTrimmed(s, l, t, p, q, r, wnd);
  }
}
