/** The receiving half of a TCP connection: the advertised window, the
    resequencing queue and the loop that hands bytes to the reader. */
module TcpReceive {
  import opened TcpSegment
  import opened Wrappers

  datatype State =
    | SynReceived | Established | Finwait1 | Finwait2
    | CloseWait | Closing | LastAck | TimeWait | Closed

  const MAX_WINDOW := 0x1000_0000

  function Total(q: seq<Seg>): nat {
    if q == [] then 0 else |q[0].data| + Total(q[1..])
  }

  lemma {:induction false} TotalConcat(a: seq<Seg>, b: seq<Seg>)
    ensures Total(a + b) == Total(a) + Total(b)
  {
    if a == [] {
      assert a + b == b;
    } else {
      assert (a + b)[1..] == a[1..] + b;
      TotalConcat(a[1..], b);
    }
  }

  // ---------------------------------------------------------------- the peer's stream

  /** What the peer sends after its SYN: bytes numbered from `base`, and possibly
      a FIN after the last of them. */
  datatype Peer = Peer(base: nat, stream: Bytes)

  /** s is a piece of the peer's stream standing at position p: any boundaries,
      with the FIN only at the very end. */
  ghost predicate Slice(peer: Peer, s: Seg, p: nat) {
    && At(s, peer.base + p) && s.ack
    && (if s.data == [] && !s.fin then p <= |peer.stream| + 1
        else p + |s.data| <= |peer.stream| && s.data == peer.stream[p..p + |s.data|]
             && (s.fin ==> p + |s.data| == |peer.stream|))
  }

  ghost predicate Near(p: int, r: int) {
    -HALF < p - r < HALF
  }

  /** Trimming a slice to the window leaves a slice, at the window's left edge if
      it overlapped it, and inside the window. */
  lemma TrimSlice(peer: Peer, s: Seg, p: nat, r: nat, wnd: nat, t: Seg)
    requires Slice(peer, s, p) && Near(p, r) && wnd < HALF
    requires Trim((peer.base + r) % M, wnd, s) == Some(t)
    ensures var q := Larger(p, r);
      Slice(peer, t, q) && q + |t.data| <= r + wnd && |t.data| <= |s.data| && t.rst == s.rst
      && q + |t.data| >= Smaller(p + |s.data|, r + wnd) && (wnd > 0 ==> (t.fin <==> s.fin && p + |s.data| <= r + wnd))
  {
    if wnd > 0 {
      TrimExact(peer.base + r, wnd, peer.base + p, s, t);
      TrimmedIsSlice(peer, s, t, p, r, wnd);
    } else {
      AcceptedIffMeets(peer.base + r, wnd, peer.base + p, s);
    }
  }

  /** What trimming a slice s at p to the window from taken to right leaves: nothing
      exactly if s and the window have nothing in common, and otherwise all of it
      that is new and fits, and the FIN if it fits. */
  ghost predicate Fitted(peer: Peer, s: Seg, p: nat, taken: nat, right: nat, r: Option<Seg>) {
    var q := Larger(p, taken);
    && taken <= right && (r.Some? <==> Meets(taken, right - taken, p, Span(s)))
    && (r.Some? ==> var t := r.value; Slice(peer, t, q) && q + |t.data| <= right && q <= right)
    && Smaller(p + |s.data|, right) <= (if r.Some? then q + |r.value.data| else q)
    && (s.fin && p <= taken <= p + |s.data| < right ==> r.Some? && r.value.fin)
  }

  /** Of a segment s at p that did not start late, all that fitted the window was
      taken, and the FIN with it. */
  ghost predicate Taken(peer: Peer, s: Seg, p: nat, taken: nat, right: nat, taken': nat) {
    && (p <= taken ==> Smaller(p + |s.data|, right) <= taken')
    && (s.fin && p <= taken <= p + |s.data| < right ==> taken' == |peer.stream| + 1)
  }

  lemma TakenFrom(peer: Peer, s: Seg, p: nat, taken: nat, right: nat, edge: nat, t: Seg, taken': nat)
    requires Fitted(peer, s, p, taken, edge, Some(t)) && right <= edge
    requires taken' >= taken + |t.data| && (t.fin ==> taken' == |peer.stream| + 1)
    ensures Taken(peer, s, p, taken, right, taken')
  {}

  lemma TrimFits(peer: Peer, s: Seg, p: nat, taken: nat, wnd: nat, nxt: nat)
    requires Slice(peer, s, p) && Near(p, taken) && wnd < HALF && nxt == (peer.base + taken) % M
    ensures Fitted(peer, s, p, taken, taken + wnd, Trim(nxt, wnd, s))
  {
    var r := Trim(nxt, wnd, s);
    AcceptedIffMeets(peer.base + taken, wnd, peer.base + p, s);
    if r.Some? {
      TrimSlice(peer, s, p, taken, wnd, r.value);
    }
  }

  lemma TrimmedIsSlice(peer: Peer, s: Seg, t: Seg, p: nat, r: nat, wnd: nat)
    requires Slice(peer, s, p) && wnd > 0
    requires Meets(peer.base + r, wnd, peer.base + p, Span(s)) && Trimmed(s, t, peer.base + p, peer.base + r, wnd)
    ensures Slice(peer, t, Larger(p, r)) && Larger(p, r) + |t.data| <= r + wnd && |t.data| <= |s.data|
    ensures Larger(p, r) + |t.data| >= Smaller(p + |s.data|, r + wnd) && (t.fin <==> s.fin && p + |s.data| <= r + wnd)
  {
    var q := Larger(p, r);
    assert Larger(peer.base + p, peer.base + r) == peer.base + q;
    if t.data != [] {
      StretchOf(peer.stream, s.data, p, t.data, q);
    }
  }

  /** Part of a stretch of the stream is a stretch of it. */
  lemma StretchOf(stream: Bytes, d: Bytes, p: nat, e: Bytes, q: nat)
    requires p <= q && q + |e| <= p + |d| <= |stream| && d == stream[p..p + |d|]
    requires forall i :: 0 <= i < |e| ==> e[i] == d[q - p + i]
    ensures e == stream[q..q + |e|]
  {
    forall i | 0 <= i < |e|
      ensures e[i] == stream[q + i]
    {
      assert d[q - p + i] == stream[p..p + |d|][q - p + i];
    }
  }

  // ---------------------------------------------------------------- the queue as a value

  /** Where addreseq puts a segment: before the first that starts later. */
  function Place(q: seq<Seg>, x: nat): (i: nat)
    ensures i <= |q|
    ensures forall k :: 0 <= k < i ==> !SeqLt(x, q[k].seqno)
    ensures i < |q| ==> SeqLt(x, q[i].seqno)
  {
    if q == [] || SeqLt(x, q[0].seqno) then 0 else 1 + Place(q[1..], x)
  }

  /** How far behind the next byte a queued segment may lag. */
  const LAG := MAX_WINDOW + 0x4_0000

  /** A queued segment: a slice of the peer's stream standing at p, not beyond
      `right` and not far behind `taken`. */
  ghost predicate Queued(peer: Peer, s: Seg, p: nat, taken: nat, right: nat) {
    Slice(peer, s, p) && taken < p + LAG && p <= right
  }

  /** The queued segments stand at pos, in order of position. */
  ghost predicate Placed(peer: Peer, q: seq<Seg>, pos: seq<nat>, taken: nat, right: nat) {
    && |pos| == |q|
    && (forall i {:trigger Queued(peer, q[i], pos[i], taken, right)} ::
          0 <= i < |q| ==> Queued(peer, q[i], pos[i], taken, right))
    && Sorted(pos)
  }

  ghost predicate Sorted(pos: seq<nat>) {
    forall i, j :: 0 <= i < j < |pos| ==> pos[i] <= pos[j]
  }

  lemma InsertSorted(pos: seq<nat>, i: nat, p: nat)
    requires i <= |pos| && Sorted(pos)
    requires (forall k :: 0 <= k < i ==> pos[k] <= p) && (i < |pos| ==> p <= pos[i])
    ensures Sorted(pos[..i] + [p] + pos[i..])
  {}

  /** Insertion in sequence order is insertion in order of position. */
  lemma PlaceKeeps(peer: Peer, q: seq<Seg>, pos: seq<nat>, taken: nat, right: nat, s: Seg, p: nat)
    requires Placed(peer, q, pos, taken, right) && right <= taken + MAX_WINDOW
    requires Queued(peer, s, p, taken, right)
    ensures var i := Place(q, s.seqno);
      Placed(peer, q[..i] + [s] + q[i..], pos[..i] + [p] + pos[i..], taken, right)
  {
    var i := Place(q, s.seqno);
    forall k | 0 <= k < |q| ensures SeqLt(s.seqno, q[k].seqno) <==> p < pos[k] {
      assert Queued(peer, q[k], pos[k], taken, right);
      ComparisonsAreTrue(peer.base + p, peer.base + pos[k]);
    }
    InsertSorted(pos, i, p);
  }

  lemma PlacedGrow(peer: Peer, q: seq<Seg>, pos: seq<nat>, taken: nat, right: nat, right': nat)
    requires Placed(peer, q, pos, taken, right) && right <= right'
    ensures Placed(peer, q, pos, taken, right')
  {
    forall i | 0 <= i < |q| ensures Queued(peer, q[i], pos[i], taken, right') {
      assert Queued(peer, q[i], pos[i], taken, right);
    }
  }

  /** The window width tcprcvwin settles on. */
  function WindowWidth(nxt: nat, wptr: nat, w: nat): nat {
    if SeqLt((nxt + w) % M, wptr) then Sub(wptr, nxt) else w
  }

  /** The arithmetic of tcprcvwin is the arithmetic of positions: the right edge
      becomes the larger of the old one and what the free space allows. */
  lemma WindowStep(base: nat, taken: nat, right: nat, w: nat)
    requires taken <= right + 1 && right <= taken + MAX_WINDOW && w <= MAX_WINDOW
    ensures var nxt, edge := (base + taken) % M, Larger(taken + w, right);
      && WindowWidth(nxt, (base + right) % M, w) == edge - taken
      && (nxt + (edge - taken)) % M == (base + edge) % M
      && SeqGe((base + edge) % M, (base + right) % M)
  {
    var edge := Larger(taken + w, right);
    WidthIsDistance(base + taken, base + right, w);
    AddMod(base + taken, edge - taken);
    ComparisonsAreTrue(base + edge, base + right);
  }

  lemma WidthIsDistance(n: nat, r: nat, w: nat)
    requires n <= r + 1 && r <= n + MAX_WINDOW && w <= MAX_WINDOW
    ensures WindowWidth(n % M, r % M, w) == Larger(n + w, r) - n
  {
    AddMod(n, w);
    ComparisonsAreTrue(n + w, r);
    if n + w < r {
      SubOfRemainders(r, n);
    }
  }

  // ---------------------------------------------------------------- states

  /** What the acknowledgement part may do to the state; the sending half decides
      between the answers. on means the segment goes further. */
  predicate AckFollows(a: State, b: State, on: bool) {
    match a
    case SynReceived => b == if on then Established else SynReceived
    case Finwait1 => on && (b == Finwait1 || b == Finwait2)
    case Closing => on && (b == Closing || b == TimeWait)
    case LastAck => b == if on then LastAck else State.Closed
    case Closed => false
    case Established => on && b == a
    case CloseWait => on && b == a
    case Finwait2 => on && b == a
    case TimeWait => on && b == a
  }

  /** The states in which text is handed to the reader, and in which a FIN counts. */
  predicate TakesText(a: State) { a == Established || a == Finwait1 }
  predicate TakesFin(a: State) { TakesText(a) || a == Finwait2 }

  /** What a FIN does to the state. */
  predicate FinFollows(a: State, b: State) {
    if a == Established then b == CloseWait
    else if a == Finwait1 then b == TimeWait || b == Closing
    else if a == Finwait2 then b == TimeWait
    else b == a
  }

  /** Sequence numbers consumed of a segment processed in state mid: its text's
      and its FIN's. */
  function TextCount(s: Seg, mid: State): nat { if TakesText(mid) then |s.data| else 0 }
  function FinCount(s: Seg, mid: State): nat { if s.fin && TakesFin(mid) then 1 else 0 }
  function Consumed(s: Seg, mid: State): nat { TextCount(s, mid) + FinCount(s, mid) }

  /** The states in which whatever acknowledges is processed to its end. */
  predicate Steady(a: State) {
    a == Established || a == CloseWait || a == Closing || a == TimeWait
  }

  /** s acknowledges and does not reset. */
  predicate Clean(s: Seg) {
    s.ack && !s.rst
  }

  predicate AllClean(q: seq<Seg>) {
    forall s :: s in q ==> Clean(s)
  }

  /** How the processing of s may end at once: by a reset, for want of an
      acknowledgement, by the acknowledgement itself, or because text comes when
      none is taken any more. */
  predicate Stopped(a: State, s: Seg, b: State) {
    if s.rst then b == State.Closed
    else if !s.ack then b == Raised(a)
    else AckFollows(a, b, false) || (s.data != [] && b == Finwait2 && AckFollows(a, b, true))
  }

  /** Where a connection stood. */
  datatype Mark = Mark(state: State, rq: Bytes, nxt: nat, taken: nat)

  ghost predicate MarkMoved(m: Mark, n: Mark) {
    m.rq <= n.rq && m.taken <= n.taken && n.nxt == (m.nxt + (n.taken - m.taken)) % M
  }

  /** A segment taken in, in state mid: its text has been handed to the reader and
      its text and FIN are counted. */
  ghost predicate TakenIn(m: Mark, s: Seg, mid: State, rq: Bytes, taken: nat) {
    && Clean(s) && AckFollows(m.state, mid, true) && (s.data != [] ==> mid != Finwait2)
    && m.rq + (if TakesText(mid) then s.data else []) <= rq && taken >= m.taken + Consumed(s, mid)
  }

  /** The segment starts past the next byte wanted and is not empty. */
  predicate Early(t: Seg, nxt: nat) {
    t.seqno != nxt && (t.data != [] || t.syn || t.fin)
  }

  /** What queueing t makes of the queue q0 of n0 bytes: all of it when a limit is
      passed is dropped. */
  ghost predicate Requeued(q0: seq<Seg>, n0: nat, q: seq<Seg>, t: Seg, window: nat, limit: nat) {
    if n0 + |t.data| <= window && |q0| + 1 <= limit then multiset(q) == multiset(q0) + multiset{t} else q == []
  }

  /** The queue q0 lost only its first k segments, and those reach no further than
      taken, or than the window edge did. */
  ghost predicate NothingLost(q0: seq<Seg>, pos0: seq<nat>, k: nat, q: seq<Seg>, edge: nat, taken: nat) {
    k <= |q0| && q == q0[k..] && Settled(q0, pos0, k, edge, taken)
  }

  /** Where the exit marked raise leads. */
  function Raised(a: State): State {
    if a == SynReceived || a == Established || a == CloseWait then a else State.Closed
  }

  /** The first k segments of the queue q, standing at pos, reach no further than
      bound, or than the window edge did. */
  ghost predicate Settled(q: seq<Seg>, pos: seq<nat>, k: nat, edge: nat, bound: nat) {
    k <= |q| && |pos| == |q| && forall i :: 0 <= i < k ==> Smaller(pos[i] + |q[i].data|, edge) <= bound
  }

  /** The queue (q0, pos0) has lost its first k segments, which are settled. */
  ghost predicate Popped(q0: seq<Seg>, pos0: seq<nat>, k: nat, q: seq<Seg>, pos: seq<nat>, edge: nat, bound: nat) {
    Settled(q0, pos0, k, edge, bound) && q == q0[k..] && pos == pos0[k..]
  }

  lemma PopOne(q0: seq<Seg>, pos0: seq<nat>, k: nat, q: seq<Seg>, pos: seq<nat>, edge: nat, bound: nat, edge': nat,
               bound': nat)
    requires Popped(q0, pos0, k, q, pos, edge, bound) && q != [] && bound <= bound' && edge <= edge'
    requires Smaller(pos[0] + |q[0].data|, edge') <= bound'
    ensures Popped(q0, pos0, k + 1, q[1..], pos[1..], edge, bound')
  {
    assert q0[k..][1..] == q0[k + 1..] && pos0[k..][1..] == pos0[k + 1..];
  }

  lemma PopMore(q0: seq<Seg>, pos0: seq<nat>, k: nat, q: seq<Seg>, pos: seq<nat>, edge: nat, bound: nat, bound': nat)
    requires Popped(q0, pos0, k, q, pos, edge, bound) && bound <= bound'
    ensures Popped(q0, pos0, k, q, pos, edge, bound')
  {}

  lemma PopRest(q0: seq<Seg>, pos0: seq<nat>, k: nat, q: seq<Seg>, pos: seq<nat>, edge: nat, bound: nat,
                j: nat, q': seq<Seg>, pos': seq<nat>, edge': nat, bound': nat)
    requires Popped(q0, pos0, k, q, pos, edge, bound) && Popped(q, pos, j, q', pos', edge', bound')
    requires bound <= bound' && edge <= edge'
    ensures Popped(q0, pos0, k + j, q', pos', edge, bound')
  {
    forall i | 0 <= i < k + j
      ensures Smaller(pos0[i] + |q0[i].data|, edge) <= bound'
    {
      if i >= k {
        assert q[i - k] == q0[i] && pos[i - k] == pos0[i];
      }
    }
    assert q0[k..][j..] == q0[k + j..] && pos0[k..][j..] == pos0[k + j..];
  }

  // ---------------------------------------------------------------- the control block

  class Tcpctl {
    var state: State
    var nxt: nat
    var wnd: nat
    var wptr: nat
    const window: nat
    const mss: nat
    var reseq: seq<Seg>
    var nreseq: nat
    var reseqlen: nat
    /** Every byte ever queued for the reader. */
    var rq: Bytes

    ghost const peer: Peer
    /** Sequence positions consumed so far, and the window's right edge. */
    ghost var taken: nat
    ghost var right: nat
    /** Where the queued segments stand. */
    ghost var pos: seq<nat>
    /** So far every segment was a slice of the peer's stream. */
    ghost var orderly: bool

    /** The counters describe the queue and keep its limits. */
    ghost predicate Counts()
      requires 0 < mss
      reads this`reseq, this`nreseq, this`reseqlen
    {
      && nreseq == |reseq| && reseqlen == Total(reseq)
      && reseqlen <= window && nreseq <= window / mss
    }

    /** A FIN has been consumed. */
    predicate FinSeen()
      reads this`state
    {
      state == CloseWait || state == Closing || state == LastAck || state == TimeWait
    }

    ghost predicate Positions()
      reads this`nxt, this`wptr, this`taken, this`right, this`state
    {
      && nxt == (peer.base + taken) % M && wptr == (peer.base + right) % M
      && taken <= right + 1 && right <= taken + window
      && taken <= |peer.stream| + 1
      && (FinSeen() ==> taken == |peer.stream| + 1)
      && (taken == |peer.stream| + 1 ==> FinSeen() || state == Closed)
    }

    /** What the reader was given is exactly the stream up to the next position. */
    ghost predicate Delivered()
      reads this`rq, this`taken
    {
      taken <= |peer.stream| + 1 && rq == peer.stream[..Smaller(taken, |peer.stream|)]
    }

    ghost predicate Inv()
      reads this
    {
      && 0 < mss && window < MAX_WINDOW && nxt < M && wptr < M && Counts()
      && (orderly ==> Positions() && Delivered() && Placed(peer, reseq, pos, taken, right))
    }

    /** Nothing queued could be handed over now. */
    ghost predicate Drained()
      reads this`pos, this`taken
    {
      forall x :: x in pos ==> taken < x
    }

    /** Between segments. */
    ghost predicate Valid()
      reads this
    {
      && Inv()
      && (orderly ==> Drained() || (state == Finwait2 && Room(0)))
    }

    /** The peer's stream is still being taken, or has been taken whole. */
    ghost predicate Receiving()
      reads this`state, this`taken
    {
      state == Established || (state == CloseWait && taken == |peer.stream| + 1)
    }

    /** Every byte of the peer's stream will be taken. */
    ghost predicate Expecting()
      reads this`state, this`taken
    {
      state == SynReceived || Receiving()
    }

    /** Text is still being handed to the reader. */
    predicate Moving()
      reads this`state
    {
      state == SynReceived || state == Established || state == Finwait1
    }

    /** How far `taken` may get with x more bytes of text and the FIN. */
    ghost function Reach(x: nat): nat
      reads this`taken, this`state
    {
      taken + (if Moving() then x else 0) + (if FinSeen() then 0 else 1)
    }

    /** Taking x more bytes of text and a FIN leaves no queued segment too far
        behind. */
    ghost predicate Room(x: nat)
      reads this`pos, this`taken, this`state
    {
      Beyond(pos, Reach(x))
    }

    /** procsyn: the peer's SYN fixes where its stream starts. */
    constructor (irs: nat, window: nat, mss: nat, state: State, ghost stream: Bytes)
      requires 0 < mss && window < MAX_WINDOW
      requires state == SynReceived || state == Established
      ensures Valid() && orderly && rq == [] && peer == Peer(irs + 1, stream)
      ensures this.window == window && this.mss == mss
    {
      this.state, this.window, this.mss := state, window, mss;
      nxt, wptr, wnd := (irs + 1) % M, (irs + 1) % M, 0;
      reseq, nreseq, reseqlen, rq := [], 0, 0, [];
      peer, taken, right, pos, orderly := Peer(irs + 1, stream), 0, 0, [], true;
    }

    /** tcprcvwin; qlen is what the reader has not read yet. The right edge of the
        window never moves left. */
    method RcvWin(qlen: nat)
      requires Inv()
      modifies this`wnd, this`wptr, this`right
      ensures Inv()
      ensures orderly ==> right == taken + wnd && wnd <= window && right >= old(right) && SeqGe(wptr, old(wptr))
      ensures orderly ==> right == Larger(taken + Larger(0, window - qlen), old(right))
    {
      var w: nat := if window < qlen then 0 else window - qlen;
      if orderly {
        PlacedGrow(peer, reseq, pos, taken, right, Larger(taken + w, right));
      }
      SetEdge(w);
    }

    method SetEdge(w: nat)
      requires orderly ==> Positions() && w <= window < MAX_WINDOW
      modifies this`wnd, this`wptr, this`right
      ensures wptr < M
      ensures orderly ==> right == Larger(taken + w, old(right)) == taken + wnd
      ensures orderly ==> Positions() && SeqGe(wptr, old(wptr))
    {
      var width, edge := NewEdge(w);
      if orderly {
        right := Larger(taken + w, right);
      }
      wnd, wptr := width, edge;
    }

    /** The width of the window, and the sequence number at its right edge. */
    method NewEdge(w: nat) returns (width: nat, edge: nat)
      requires orderly ==> Positions() && w <= window < MAX_WINDOW
      ensures edge < M
      ensures orderly ==> var r := Larger(taken + w, right);
                width == r - taken && edge == (peer.base + r) % M && SeqGe(edge, wptr)
    {
      width := WindowWidth(nxt, wptr, w);
      edge := (nxt + width) % M;
      if orderly {
        WindowStep(peer.base, taken, right, w);
      }
    }

    method DumpReseq()
      requires 0 < mss
      modifies this`reseq, this`nreseq, this`reseqlen, this`pos
      ensures reseq == [] && pos == [] && Counts()
    {
      reseq, nreseq, reseqlen, pos := [], 0, 0, [];
    }

    /** addreseq: queue a segment that starts past the next byte wanted; the whole
        queue is dropped when it gets too long. */
    method AddReseq(s: Seg, ghost p: nat) returns (kept: bool)
      requires Inv() && (orderly ==> Queued(peer, s, p, taken, right))
      modifies this`reseq, this`nreseq, this`reseqlen, this`pos
      ensures Inv() && Counts() && (!kept ==> reseq == [] && pos == [])
      ensures kept ==> multiset(reseq) == multiset(old(reseq)) + multiset{s}
      ensures forall x :: x in pos ==> x == p || x in old(pos)
      ensures old(Drained()) && taken < p ==> Drained()
      ensures kept <==> old(reseqlen) + |s.data| <= window && old(nreseq) + 1 <= window / mss
    {
      var i := FindPlace(s.seqno);
      Link(s, p, i);
      if reseqlen > window || nreseq > window / mss {
        DumpReseq();
        assert Inv();
        return false;
      }
      kept := true;
    }

    /** The list walk: the first entry that starts after x. */
    method FindPlace(x: nat) returns (j: nat)
      ensures j == Place(reseq, x)
    {
      j := 0;
      while j < |reseq| && !SeqLt(x, reseq[j].seqno)
        invariant 0 <= j <= |reseq| && Place(reseq, x) == j + Place(reseq[j..], x)
      {
        assert reseq[j..][1..] == reseq[j + 1..];
        j := j + 1;
      }
    }

    method Link(s: Seg, ghost p: nat, i: nat)
      requires i == Place(reseq, s.seqno)
      requires orderly ==>
                 && Placed(peer, reseq, pos, taken, right) && Queued(peer, s, p, taken, right)
                 && right <= taken + MAX_WINDOW
      modifies this`reseq, this`nreseq, this`reseqlen, this`pos
      ensures nreseq == old(nreseq) + 1 && reseqlen == old(reseqlen) + |s.data|
      ensures |reseq| == |old(reseq)| + 1 && Total(reseq) == Total(old(reseq)) + |s.data|
      ensures multiset(reseq) == multiset(old(reseq)) + multiset{s}
      ensures orderly ==> Placed(peer, reseq, pos, taken, right)
      ensures forall x :: x in pos ==> x == p || x in old(pos)
    {
      LinkValue(reseq, i, s);
      if orderly {
        PlaceKeeps(peer, reseq, pos, taken, right, s, p);
        pos := pos[..i] + [p] + pos[i..];
      } else {
        pos := [];
      }
      reseq := reseq[..i] + [s] + reseq[i..];
      reseqlen := reseqlen + |s.data|;
      nreseq := nreseq + 1;
    }

    /** getreseq. */
    method GetReseq() returns (s: Seg, ghost p: nat)
      requires Inv() && reseq != []
      modifies this`reseq, this`nreseq, this`reseqlen, this`pos
      ensures Inv() && [s] + reseq == old(reseq) && reseqlen + |s.data| == old(reseqlen)
      ensures orderly ==> [p] + pos == old(pos) && Queued(peer, s, p, taken, right)
    {
      s := reseq[0];
      p := 0;
      if orderly {
        PlacedTail(peer, reseq, pos, taken, right);
        p := pos[0];
        pos := pos[1..];
      }
      reseq := reseq[1..];
      reseqlen := reseqlen - |s.data|;
      nreseq := nreseq - 1;
    }

    /** localclose. */
    method LocalClose()
      requires Inv()
      modifies this`state, this`reseq, this`nreseq, this`reseqlen, this`pos
      ensures Inv() && state == Closed && reseq == [] && pos == []
    {
      DumpReseq();
      state := Closed;
    }

    /** The exit marked raise: tcpkick hangs up unless data may still flow out. */
    method Raise()
      requires Inv()
      modifies this`state, this`reseq, this`nreseq, this`reseqlen, this`pos
      ensures Inv()
      ensures state == Raised(old(state))
      ensures if old(state) == SynReceived || old(state) == Established || old(state) == CloseWait
              then state == old(state) && reseq == old(reseq) && pos == old(pos) && reseqlen == old(reseqlen)
              else state == Closed && reseq == [] && pos == []
    {
      if state != SynReceived && state != Established && state != CloseWait {
        LocalClose();
      }
    }

    /** A segment about to be processed: in place, inside the window. */
    ghost predicate Ready(s: Seg, p: nat)
      reads this`taken, this`right
    {
      Slice(peer, s, p) && p + |s.data| <= right && (Span(s) > 0 ==> p == taken)
    }

    /** Hand in-order text to the reader. */
    method TakeText(s: Seg, ghost p: nat)
      requires InHand(s, p) && Moving() && s.data != []
      modifies this`rq, this`nxt, this`taken, this`state
      ensures Inv() && rq == old(rq) + s.data && state == old(state)
      ensures taken == old(taken) + |s.data| && nxt == (old(nxt) + |s.data|) % M && (orderly ==> Room(reseqlen))
    {
      if orderly {
        TextFits(s, p);
      }
      Advance(s.data, |s.data|, state);
    }

    /** Text in hand continues the stream, and leaves the queue where it was. */
    lemma TextFits(s: Seg, p: nat)
      requires orderly && InHand(s, p) && Moving() && s.data != []
      ensures var n := taken + |s.data|;
              && n <= right && n <= |peer.stream| && rq + s.data == peer.stream[..n]
              && Placed(peer, reseq, pos, n, right)
    {
      TextExtends(peer, s, p, rq);
      PlacedLater(peer, reseq, pos, taken, taken + |s.data|, right);
    }

    /** More text for the reader; rcv.nxt moves on by n. */
    method Advance(text: Bytes, n: nat, next: State)
      requires orderly ==>
                 && Positions() && taken + n <= right + 1 && taken + n <= |peer.stream| + 1
                 && (Moving() || state == Finwait2)
                 && (taken + n == |peer.stream| + 1 <==> next == CloseWait || next == Closing || next == TimeWait)
                 && next != LastAck && rq + text == peer.stream[..Smaller(taken + n, |peer.stream|)]
      modifies this`rq, this`nxt, this`taken, this`state
      ensures rq == old(rq) + text && nxt == (old(nxt) + n) % M && taken == old(taken) + n && state == next
      ensures orderly ==> Positions() && Delivered()
    {
      Step(n);
      rq := rq + text;
      state := next;
    }

    method Step(n: nat)
      requires orderly ==> nxt == (peer.base + taken) % M
      modifies this`nxt, this`taken
      ensures nxt == (old(nxt) + n) % M && taken == old(taken) + n && (orderly ==> nxt == (peer.base + taken) % M)
    {
      AddMod(peer.base + taken, n);
      nxt := (nxt + n) % M;
      taken := taken + n;
    }

    /** Count the FIN and move to state next. */
    method TakeFin(next: State, ghost p: nat)
      requires Inv() && (Moving() || state == Finwait2)
      requires next == CloseWait || next == Closing || next == TimeWait
      requires orderly ==> taken == |peer.stream| && taken <= right && Room(reseqlen)
      modifies this`rq, this`nxt, this`taken, this`state
      ensures Inv() && state == next && taken == old(taken) + 1
      ensures nxt == (old(nxt) + 1) % M && (orderly ==> Room(reseqlen))
      ensures rq == old(rq)
    {
      if orderly {
        FinFits();
      }
      assert rq + [] == rq;
      Advance([], 1, next);
    }

    lemma FinFits()
      requires orderly && Roomy() && (Moving() || state == Finwait2) && taken == |peer.stream|
      ensures rq == peer.stream && Placed(peer, reseq, pos, taken + 1, right)
    {
      PlacedLater(peer, reseq, pos, taken, taken + 1, right);
    }

    /** What the acknowledgement field brings about is up to the sending half. */
    method Update() returns (allAcked: bool) {
      allAcked := *;
    }

    /** tcpsetstate between states that agree on whether the FIN has come. */
    method MoveTo(next: State, ghost s: Seg, ghost p: nat)
      requires InHand(s, p) && state != Closed && next != Closed && next != SynReceived
      requires next == Established || next == Finwait1 ==> Moving()
      requires FinSeen() <==> next == CloseWait || next == Closing || next == LastAck || next == TimeWait
      modifies this`state
      ensures InHand(s, p) && state == next
    {
      state := next;
    }

    /** The acknowledgement part of one turn of the processing loop; false means
        the segment goes no further. */
    method OnAck(ghost s: Seg, ghost p: nat) returns (on: bool)
      requires Going(s, p)
      modifies this`state, this`reseq, this`nreseq, this`reseqlen, this`pos
      ensures if on then InHand(s, p) && state != SynReceived && state != Closed else Valid()
      ensures on ==> reseq == old(reseq) && pos == old(pos)
      ensures AckFollows(old(state), state, on)
    {
      var done := Update();
      on := true;
      match state
      case SynReceived =>
        var inRange := Update();
        if !inRange {
          Raise();
          return false;
        }
        MoveTo(Established, s, p);
      case Finwait1 =>
        if done {
          MoveTo(Finwait2, s, p);
        }
      case Closing =>
        if done {
          MoveTo(TimeWait, s, p);
        }
      case LastAck =>
        if done {
          LocalClose();
          return false;
        }
      case _ =>
    }

    /** The FIN part of one turn. */
    method OnFin(ghost p: nat)
      requires Roomy() && state != SynReceived && state != Closed && (orderly ==> FinDue())
      modifies this`rq, this`nxt, this`taken, this`state
      ensures Roomy() && rq == old(rq)
      ensures FinFollows(old(state), state)
      ensures var n := if TakesFin(old(state)) then 1 else 0; taken == old(taken) + n && nxt == (old(nxt) + n) % M
    {
      match state
      case Established => TakeFin(CloseWait, p);
      case Finwait1 =>
        var done := Update();
        TakeFin(if done then TimeWait else Closing, p);
      case Finwait2 => TakeFin(TimeWait, p);
      case _ =>
    }

    /** What is queued may all be taken. */
    ghost predicate Roomy()
      reads this
    {
      Inv() && (orderly ==> Room(reseqlen))
    }

    /** s is ready to be processed, and may be taken with all that is queued. */
    ghost predicate InHand(s: Seg, p: nat)
      reads this
    {
      Inv() && |s.data| < M && (orderly ==> Ready(s, p) && Room(|s.data| + reseqlen))
    }

    /** The FIN has come in order, and is counted already or lies in the window. */
    ghost predicate FinDue()
      reads this`taken, this`right
    {
      taken == |peer.stream| + 1 || (taken == |peer.stream| && taken <= right)
    }

    /** The loop has segment s in hand. */
    ghost predicate Going(s: Seg, p: nat)
      reads this
    {
      InHand(s, p) && state != Closed && (orderly && state == SynReceived ==> Drained())
    }

    /** A reset, or a segment without an acknowledgement, ends the connection. */
    method Stop(s: Seg, ghost p: nat)
      requires Going(s, p) && (s.rst || !s.ack)
      modifies this`state, this`reseq, this`nreseq, this`reseqlen, this`pos
      ensures Valid() && state == if s.rst then State.Closed else Raised(old(state))
    {
      if s.rst {
        LocalClose();
      } else {
        Raise();
      }
    }

    /** One turn of the processing loop. */
    method Process(s: Seg, ghost p: nat) returns (on: bool, ghost mid: State)
      requires Going(s, p)
      modifies this`rq, this`nxt, this`taken, this`state, this`reseq, this`nreseq, this`reseqlen, this`pos
      ensures if on then Roomy() else Valid()
      ensures on ==> state != Closed && state != SynReceived && reseq == old(reseq) && pos == old(pos)
      ensures on ==> !s.rst && s.ack && AckFollows(old(state), mid, true) && (s.data != [] ==> mid != Finwait2)
      ensures on ==> if s.fin then FinFollows(mid, state) else state == mid
      ensures on ==> rq == old(rq) + (if TakesText(mid) then s.data else [])
      ensures on ==> taken == old(taken) + Consumed(s, mid) && nxt == (old(nxt) + Consumed(s, mid)) % M
      ensures !on ==> rq == old(rq) && nxt == old(nxt) && taken == old(taken)
      ensures !on ==> Stopped(old(state), s, state)
    {
      if s.rst || !s.ack {
        on, mid := false, state;
        Stop(s, p);
        return;
      }
      on, mid := Acked(s, p);
    }

    /** One turn for a segment that acknowledges. */
    method Acked(s: Seg, ghost p: nat) returns (on: bool, ghost mid: State)
      requires Going(s, p)
      modifies this`rq, this`nxt, this`taken, this`state, this`reseq, this`nreseq, this`reseqlen, this`pos
      ensures if on then Roomy() else Valid()
      ensures on ==> state != Closed && state != SynReceived && reseq == old(reseq) && pos == old(pos)
      ensures on ==> AckFollows(old(state), mid, true) && (s.data != [] ==> mid != Finwait2)
      ensures on ==> if s.fin then FinFollows(mid, state) else state == mid
      ensures on ==> rq == old(rq) + (if TakesText(mid) then s.data else [])
      ensures on ==> taken == old(taken) + Consumed(s, mid) && nxt == (old(nxt) + Consumed(s, mid)) % M
      ensures !on ==> rq == old(rq) && nxt == old(nxt) && taken == old(taken)
      ensures !on ==> AckFollows(old(state), state, false)
                      || (s.data != [] && state == Finwait2 && AckFollows(old(state), state, true))
    {
      on := OnAck(s, p);
      mid := state;
      if on {
        on := Consume(s, p);
      }
    }

    /** The text part of one turn. */
    method TakeData(s: Seg, ghost p: nat) returns (on: bool)
      requires InHand(s, p) && state != Closed && state != SynReceived
      modifies this`rq, this`nxt, this`taken, this`state
      ensures Inv() && state == old(state) && (orderly ==> Room(reseqlen) && (on && s.fin ==> FinDue()))
      ensures on <==> s.data == [] || state != Finwait2
      ensures taken == old(taken) + TextCount(s, state) && nxt == (old(nxt) + TextCount(s, state)) % M
      ensures rq == old(rq) + (if TakesText(state) then s.data else [])
    {
      on := true;
      if s.data != [] {
        if state == Established || state == Finwait1 {
          TakeText(s, p);
        } else if state == Finwait2 {
          on := false;
        }
      }
    }

    /** The text and FIN parts of one turn. */
    method Consume(s: Seg, ghost p: nat) returns (on: bool)
      requires InHand(s, p) && state != Closed && state != SynReceived
      modifies this`rq, this`nxt, this`taken, this`state
      ensures Roomy() && state != Closed && state != SynReceived
      ensures on <==> s.data == [] || old(state) != Finwait2
      ensures if on && s.fin then FinFollows(old(state), state) else state == old(state)
      ensures rq == old(rq) + (if TakesText(old(state)) then s.data else [])
      ensures on ==> taken == old(taken) + Consumed(s, old(state)) && nxt == (old(nxt) + Consumed(s, old(state))) % M
      ensures !on ==> taken == old(taken) && nxt == old(nxt)
    {
      on := TakeData(s, p);
      if on {
        TakeEnd(s, p, old(nxt), TextCount(s, state));
      }
    }

    /** The FIN part of one turn, for a segment with or without one; before its text
        of n bytes rcv.nxt was x. */
    method TakeEnd(s: Seg, ghost p: nat, ghost x: nat, ghost n: nat)
      requires Roomy() && state != SynReceived && state != Closed
      requires (orderly && s.fin ==> FinDue()) && nxt == (x + n) % M
      modifies this`rq, this`nxt, this`taken, this`state
      ensures Roomy() && rq == old(rq) && if s.fin then FinFollows(old(state), state) else state == old(state)
      ensures taken == old(taken) + FinCount(s, old(state)) && nxt == (x + (n + FinCount(s, old(state)))) % M
    {
      if s.fin {
        OnFin(p);
        AddTwice(x, n, FinCount(s, old(state)), old(nxt), nxt);
      }
    }

    /** What was the queue (q0, pos0) with the window up to edge has lost its first
        k segments; with n bytes in hand these are settled. */
    ghost predicate Account(q0: seq<Seg>, pos0: seq<nat>, k: nat, edge: nat, n: nat)
      reads this`taken, this`right, this`reseq, this`pos, this`orderly
    {
      orderly ==> right >= edge && Popped(q0, pos0, k, reseq, pos, edge, taken + n)
    }

    /** Take segments that are due off the queue until one survives trimming. */
    method NextDue() returns (found: bool, s: Seg, ghost p: nat, ghost k: nat)
      requires Roomy()
      modifies this`wnd, this`wptr, this`right, this`reseq, this`nreseq, this`reseqlen, this`pos
      ensures if found then |reseq| < |old(reseq)| && InHand(s, p) else Rested()
      ensures Account(old(reseq), old(pos), k, old(right), if found then |s.data| else 0)
      ensures AllClean(old(reseq)) ==> AllClean(reseq) && (found ==> Clean(s))
    {
      k := 0;
      ghost var q0, pos0, edge := reseq, pos, right;
      found, s, p := false, Seg(0, [], false, false, false, false), 0;
      while !found && reseq != [] && SeqGe(nxt, reseq[0].seqno)
        invariant if found then |reseq| < |q0| && InHand(s, p) else |reseq| <= |q0| && Roomy()
        invariant Account(q0, pos0, k, edge, if found then |s.data| else 0)
        invariant AllClean(q0) ==> AllClean(reseq) && (found ==> Clean(s))
        decreases |reseq|
      {
        found, s, p := Pop(q0, pos0, k, edge);
        k := k + 1;
      }
      if !found {
        FrontRests();
      }
    }

    /** One turn of that loop. */
    method Pop(ghost q0: seq<Seg>, ghost pos0: seq<nat>, ghost k: nat, ghost edge: nat)
        returns (ok: bool, s: Seg, ghost p: nat)
      requires Roomy() && reseq != [] && SeqGe(nxt, reseq[0].seqno) && Account(q0, pos0, k, edge, 0)
      modifies this`wnd, this`wptr, this`right, this`reseq, this`nreseq, this`reseqlen, this`pos
      ensures |reseq| < |old(reseq)| && if ok then InHand(s, p) else Roomy()
      ensures Account(q0, pos0, k + 1, edge, if ok then |s.data| else 0)
      ensures AllClean(old(reseq)) ==> AllClean(reseq) && (ok ==> Clean(s))
    {
      ghost var q1, pos1 := reseq, pos;
      CleanTail(q1);
      ok, s, p := Due();
      if orderly {
        PopOne(q0, pos0, k, q1, pos1, edge, taken, right, taken + if ok then |s.data| else 0);
      }
    }

    /** Nothing queued is due. */
    ghost predicate Rested()
      reads this
    {
      Inv() && (orderly ==> Drained()) && (reseq == [] || SeqLt(nxt, reseq[0].seqno))
    }

    /** When the front of the queue is not due, nothing is. */
    lemma FrontRests()
      requires Inv() && (reseq == [] || !SeqGe(nxt, reseq[0].seqno))
      ensures Rested()
    {
      if orderly && reseq != [] {
        FrontIsFirst(peer, reseq, pos, taken, right);
      }
    }

    lemma FrontDue()
      requires Inv() && reseq != [] && SeqGe(nxt, reseq[0].seqno)
      ensures orderly ==> |pos| > 0 && pos[0] <= taken && Near(pos[0], taken)
    {
      if orderly {
        FrontIsFirst(peer, reseq, pos, taken, right);
      }
    }

    /** The front of the queue is due: trim it to the present window. */
    method Due() returns (ok: bool, s: Seg, ghost p: nat)
      requires Roomy() && reseq != [] && SeqGe(nxt, reseq[0].seqno)
      modifies this`wnd, this`wptr, this`right, this`reseq, this`nreseq, this`reseqlen, this`pos
      ensures if ok then InHand(s, p) else Roomy()
      ensures reseq == old(reseq)[1..] && (orderly ==> right >= old(right) && |old(pos)| > 0 && pos == old(pos)[1..])
      ensures orderly ==> Smaller(old(pos)[0] + |old(reseq)[0].data|, right) <= taken + (if ok then |s.data| else 0)
      ensures ok ==> s.rst == old(reseq)[0].rst && s.ack == old(reseq)[0].ack
    {
      FrontDue();
      s, p := GetReseq();
      if orderly {
        BeyondTail(p, pos, Reach(|s.data| + reseqlen));
      }
      ok, s, p := FitDue(s, p);
    }

    /** Trim a segment that is due to the present window. */
    method FitDue(s: Seg, ghost p: nat) returns (ok: bool, t: Seg, ghost q: nat)
      requires Inv() && |s.data| < M
      requires orderly ==> Slice(peer, s, p) && Near(p, taken) && p <= taken && Room(|s.data| + reseqlen)
      modifies this`wnd, this`wptr, this`right
      ensures (orderly ==> right >= old(right)) && if ok then InHand(t, q) else Roomy()
      ensures ok ==> t.rst == s.rst && t.ack == s.ack
      ensures orderly ==> Smaller(p + |s.data|, right) <= taken + (if ok then |t.data| else 0)
    {
      var r;
      r, q := Fit(s, p);
      ok, t := r.Some?, if r.Some? then r.value else s;
      if orderly {
        DueFitted(peer, s, p, taken, right, r);
      }
      assert Room(|s.data| + reseqlen) ==> Room((if ok then |t.data| else 0) + reseqlen);
    }

    /** Bring the window up to date and trim a segment to it. */
    method Fit(s: Seg, ghost p: nat) returns (r: Option<Seg>, ghost q: nat)
      requires Inv() && |s.data| < M && (orderly ==> Slice(peer, s, p) && Near(p, taken))
      modifies this`wnd, this`wptr, this`right
      ensures Inv() && (orderly ==> right >= old(right))
      ensures r.Some? ==> |r.value.data| <= |s.data| && r.value.rst == s.rst && r.value.ack == s.ack
      ensures orderly ==> Fitted(peer, s, p, taken, right, r) && q == Larger(p, taken)
      ensures orderly ==> right == taken + wnd && right <= taken + window
    {
      var qlen: nat := *;
      RcvWin(qlen);
      q := Larger(p, taken);
      r := TrimHere(s, p);
    }

    /** tcptrim to the window as it stands. */
    method TrimHere(s: Seg, ghost p: nat) returns (r: Option<Seg>)
      requires orderly ==> right == taken + wnd && nxt == (peer.base + taken) % M && wnd < HALF
      requires orderly ==> Slice(peer, s, p) && Near(p, taken)
      ensures r.Some? ==> |r.value.data| <= |s.data| && r.value.rst == s.rst && r.value.ack == s.ack
      ensures orderly ==> Fitted(peer, s, p, taken, right, r)
    {
      r := Trim(nxt, wnd, s);
      if orderly {
        TrimFits(peer, s, p, taken, wnd, nxt);
      }
      if r.Some? {
        TrimShrinks(nxt, wnd, s);
      }
    }

    ghost function Here(): Mark
      reads this`state, this`rq, this`nxt, this`taken
    {
      Mark(state, rq, nxt, taken)
    }

    /** Since m nothing handed to the reader was taken back, and rcv.nxt moved on by
        what was taken. */
    ghost predicate Moved(m: Mark)
      reads this`state, this`rq, this`nxt, this`taken
    {
      MarkMoved(m, Mark(state, rq, nxt, taken))
    }

    /** What the turn that processed s has come to since m. */
    ghost predicate FirstTurn(m: Mark, s: Seg, on: bool, mid: State)
      reads this`state, this`rq, this`nxt, this`taken
    {
      if on then Moved(m) && TakenIn(m, s, mid, rq, taken)
      else rq == m.rq && nxt == m.nxt && taken == m.taken && Stopped(m.state, s, state)
    }

    lemma TurnTaken(m: Mark, s: Seg, on: bool, mid: State)
      requires on ==> Clean(s) && AckFollows(m.state, mid, true) && (s.data != [] ==> mid != Finwait2)
      requires on ==> rq == m.rq + (if TakesText(mid) then s.data else [])
      requires on ==> taken == m.taken + Consumed(s, mid) && nxt == (m.nxt + Consumed(s, mid)) % M
      requires on ==> if s.fin then FinFollows(mid, state) else state == mid
      requires !on ==> rq == m.rq && nxt == m.nxt && taken == m.taken && Stopped(m.state, s, state)
      ensures FirstTurn(m, s, on, mid) && (Steady(m.state) && Clean(s) ==> on && Steady(state))
    {}

    /** Process a segment, and see that the rest of the stream is still expected. */
    method Serve(s: Seg, ghost p: nat) returns (on: bool, ghost mid: State)
      requires Going(s, p)
      modifies this`rq, this`nxt, this`taken, this`state, this`reseq, this`nreseq, this`reseqlen, this`pos
      ensures if on then Roomy() else Valid()
      ensures on ==> state != Closed && state != SynReceived && taken >= old(taken)
      ensures on ==> reseq == old(reseq) && pos == old(pos)
      ensures on && orderly && old(Expecting()) ==> Expecting() && taken >= old(taken) + |s.data|
      ensures on && orderly && old(Expecting()) && (s.fin || old(state) == CloseWait) ==> state == CloseWait
      ensures FirstTurn(old(Here()), s, on, mid) && (Steady(old(state)) && Clean(s) ==> on && Steady(state))
    {
      ghost var a, n := state, taken;
      ghost var m := Here();
      on, mid := Process(s, p);
      if on && orderly && old(Expecting()) {
        StaysExpected(peer, s, p, a, mid, state, n, taken);
      }
      TurnTaken(m, s, on, mid);
    }

    /** With n bytes in hand the stream is taken up to due, the segments popped so
        far are settled, and a FIN that was there to take has been. */
    ghost predicate Carried(q0: seq<Seg>, pos0: seq<nat>, k: nat, edge: nat, due: nat, n: nat, fin: bool)
      reads this`state, this`taken, this`reseq, this`pos
    {
      && Expecting() && taken + n >= due && (fin ==> state == CloseWait)
      && Popped(q0, pos0, k, reseq, pos, edge, taken + n)
    }

    /** Process a segment and every queued one it makes due; true means the loop
        ran out of due segments. */
    method Deliver(s: Seg, ghost p: nat) returns (out: bool, ghost k: nat, ghost mid: Option<State>)
      requires Going(s, p)
      modifies this`wnd, this`wptr, this`right, this`rq, this`nxt, this`taken, this`state
      modifies this`reseq, this`nreseq, this`reseqlen, this`pos
      ensures Valid() && (orderly ==> right >= old(right))
      ensures out ==> reseq == [] || SeqLt(nxt, reseq[0].seqno)
      ensures out && orderly && old(Expecting()) ==>
                NothingLost(old(reseq), old(pos), k, reseq, old(right), taken) && taken >= old(taken) + |s.data|
      ensures out && orderly && old(Expecting()) && s.fin ==> state == CloseWait && taken == |peer.stream| + 1
      ensures !Early(s, old(nxt)) ==> Answered(old(Here()), old(reseq), old(reseqlen), old(Smooth(s)), s, out, mid)
    {
      ghost var q0, pos0, edge, due := reseq, pos, right, taken + |s.data|;
      ghost var keen := orderly && Expecting();
      assert keen ==> Carried(q0, pos0, 0, edge, due, |s.data|, false);
      ghost var m := Here();
      out, k, mid := Loop(s, p, q0, pos0, edge, due, keen);
      ToldServed(m, s, mid);
    }

    /** The loop itself. */
    method Loop(s: Seg, ghost p: nat, ghost q0: seq<Seg>, ghost pos0: seq<nat>, ghost edge: nat, ghost due: nat,
                ghost keen: bool)
        returns (out: bool, ghost k: nat, ghost mid: Option<State>)
      requires Going(s, p) && (orderly ==> right >= edge)
      requires keen ==> orderly && Carried(q0, pos0, 0, edge, due, |s.data|, false)
      modifies this`wnd, this`wptr, this`right, this`rq, this`nxt, this`taken, this`state
      modifies this`reseq, this`nreseq, this`reseqlen, this`pos
      ensures Valid() && (orderly ==> right >= edge) && (out ==> Rested())
      ensures out && keen ==> Carried(q0, pos0, k, edge, due, 0, s.fin)
      ensures Told(old(Here()), s, mid) && (out ==> mid.Some?) && (old(Smooth(s)) ==> out)
    {
      var cur := s;
      ghost var q := p;
      ghost var m, smooth := Here(), Smooth(s);
      k, mid := 0, None;
      while true
        invariant Ledger(m, s, cur, mid) && (smooth ==> Smooth(cur))
        invariant Going(cur, q) && (orderly ==> right >= edge)
        invariant keen ==> Carried(q0, pos0, k, edge, due, |cur.data|, s.fin && !cur.fin)
        decreases |reseq|
      {
        var on, found;
        on, found, cur, q, k, mid := Cycle(cur, q, q0, pos0, k, edge, due, s, keen, m, mid, smooth);
        if !on {
          return false, k, mid;
        }
        if !found {
          return true, k, mid;
        }
      }
    }

    /** What has become of s since m, if a turn has gone past it in state mid or
        stopped at it. */
    ghost predicate Told(m: Mark, s: Seg, mid: Option<State>)
      reads this`state, this`rq, this`nxt, this`taken
    {
      if mid.Some? then Moved(m) && TakenIn(m, s, mid.value, rq, taken)
      else rq == m.rq && nxt == m.nxt && taken == m.taken && Stopped(m.state, s, state)
    }

    /** What has become of t since m, when the queue was q0 with n0 bytes: an early
        segment is queued, and any other is processed, to the end of the loop if
        nothing could stop it. */
    ghost predicate Answered(m: Mark, q0: seq<Seg>, n0: nat, smooth: bool, t: Seg, out: bool, mid: Option<State>)
      requires 0 < mss
      reads this`state, this`rq, this`nxt, this`taken, this`reseq
    {
      if Early(t, m.nxt) then
        !out && rq == m.rq && nxt == m.nxt && state == m.state && Requeued(q0, n0, reseq, t, window, window / mss)
      else Told(m, t, mid) && (Clean(t) ==> Served(m, t)) && (out ==> mid.Some?) && (smooth ==> out)
    }

    /** Nothing is lost of the queue (q0, pos0), nor of s where it fitted the window
        from taken0 to right0. */
    ghost predicate AllKept(q0: seq<Seg>, pos0: seq<nat>, k: nat, edge: nat, s: Seg, p: nat, taken0: nat, right0: nat)
      reads this`reseq, this`taken
    {
      NothingLost(q0, pos0, k, reseq, edge, taken) && Taken(peer, s, p, taken0, right0, taken)
    }

    /** Nothing in hand or queued can stop the processing. */
    ghost predicate Smooth(s: Seg)
      reads this`state, this`reseq
    {
      Steady(state) && Clean(s) && AllClean(reseq)
    }

    /** The same between turns, with cur in hand. */
    ghost predicate Ledger(m: Mark, s: Seg, cur: Seg, mid: Option<State>)
      reads this`state, this`rq, this`nxt, this`taken
    {
      if mid.None? then cur == s && Here() == m else Told(m, s, mid)
    }

    /** One turn of the loop: process, then fetch the next due segment, with both
        accounts carried on. */
    method Cycle(c: Seg, ghost p: nat, ghost q0: seq<Seg>, ghost pos0: seq<nat>, ghost k: nat, ghost edge: nat,
                 ghost due: nat, ghost s: Seg, ghost keen: bool, ghost m: Mark, ghost mid: Option<State>,
                 ghost smooth: bool)
        returns (on: bool, found: bool, t: Seg, ghost q: nat, ghost k': nat, ghost mid': Option<State>)
      requires Going(c, p) && Ledger(m, s, c, mid) && (smooth ==> Smooth(c))
      requires keen ==> orderly && right >= edge && Carried(q0, pos0, k, edge, due, |c.data|, s.fin && !c.fin)
      modifies this`wnd, this`wptr, this`right, this`rq, this`nxt, this`taken, this`state
      modifies this`reseq, this`nreseq, this`reseqlen, this`pos
      ensures (orderly ==> right >= old(right)) && (!on ==> Valid())
      ensures on && found ==> |reseq| < |old(reseq)| && Going(t, q) && (smooth ==> Smooth(t))
      ensures on && !found ==> Valid() && Rested()
      ensures on && keen ==> Carried(q0, pos0, k', edge, due, if found then |t.data| else 0, s.fin)
      ensures Told(m, s, mid') && (on ==> mid'.Some?) && (smooth ==> on)
    {
      found, t, q, k' := false, c, p, k;
      on, mid' := ServeOne(c, p, q0, pos0, k, edge, due, s, keen, m, mid, smooth);
      if on {
        found, t, q, k' := Fetch(q0, pos0, k, edge, due, s.fin, keen);
      }
    }

    /** The first half of a turn. */
    method ServeOne(c: Seg, ghost p: nat, ghost q0: seq<Seg>, ghost pos0: seq<nat>, ghost k: nat, ghost edge: nat,
                    ghost due: nat, ghost s: Seg, ghost keen: bool, ghost m: Mark, ghost mid: Option<State>,
                    ghost smooth: bool)
        returns (on: bool, ghost mid': Option<State>)
      requires Going(c, p) && Ledger(m, s, c, mid) && (smooth ==> Smooth(c))
      requires keen ==> orderly && right >= edge && Carried(q0, pos0, k, edge, due, |c.data|, s.fin && !c.fin)
      modifies this`rq, this`nxt, this`taken, this`state, this`reseq, this`nreseq, this`reseqlen, this`pos
      ensures if on then Roomy() && state != Closed && state != SynReceived && reseq == old(reseq) else Valid()
      ensures on && keen ==> Carried(q0, pos0, k, edge, due, 0, s.fin)
      ensures Told(m, s, mid') && (on ==> mid'.Some?) && (smooth ==> on && Steady(state) && AllClean(reseq))
    {
      ghost var now, bound := Here(), taken + |c.data|;
      ghost var turn;
      on, turn := Serve(c, p);
      mid' := Tell(m, s, now, c, on, turn, mid);
      if on && keen {
        PopMore(q0, pos0, k, reseq, pos, edge, bound, taken);
      }
    }

    /** The second half of a turn. */
    method Fetch(ghost q0: seq<Seg>, ghost pos0: seq<nat>, ghost k: nat, ghost edge: nat, ghost due: nat,
                 ghost fin: bool, ghost keen: bool)
        returns (found: bool, t: Seg, ghost q: nat, ghost k': nat)
      requires Roomy() && (keen ==> orderly && right >= edge && Carried(q0, pos0, k, edge, due, 0, fin))
      modifies this`wnd, this`wptr, this`right, this`reseq, this`nreseq, this`reseqlen, this`pos
      ensures (orderly ==> right >= old(right)) && if found then |reseq| < |old(reseq)| && InHand(t, q) else Rested()
      ensures keen ==> Carried(q0, pos0, k', edge, due, if found then |t.data| else 0, fin)
      ensures AllClean(old(reseq)) ==> AllClean(reseq) && (found ==> Clean(t))
    {
      ghost var q1, pos1, edge1 := reseq, pos, right;
      ghost var j: nat;
      found, t, q, j := NextDue();
      k' := k + j;
      if keen {
        PopRest(q0, pos0, k, q1, pos1, edge, taken, j, reseq, pos, edge1, taken + if found then |t.data| else 0);
      }
    }

    /** One more turn, from now, that processed c. */
    lemma Tell(m: Mark, s: Seg, now: Mark, c: Seg, on: bool, turn: State, mid: Option<State>)
        returns (mid': Option<State>)
      requires FirstTurn(now, c, on, turn)
      requires if mid.None? then c == s && now == m
               else MarkMoved(m, now) && TakenIn(m, s, mid.value, now.rq, now.taken)
      ensures Told(m, s, mid') && (on ==> mid'.Some?)
    {
      mid' := if mid.None? && on then Some(turn) else mid;
      if mid.Some? && on {
        AddTwice(m.nxt, now.taken - m.taken, taken - now.taken, now.nxt, nxt);
      }
    }

    /** tcpiput for a connection past its SYN: one arriving segment, of which t is
        what the window, ending at edge, lets through. While every segment is a
        slice of the peer's stream, the reader has been given exactly the stream
        up to the next position, without a consumed FIN. When the loop ran out
        (out), nothing queued starts at or before rcv.nxt, and on an open connection
        nothing that was queued or arrived within the window has been lost. */
    method Input(s: Seg, ghost p: nat)
        returns (out: bool, ghost t: Option<Seg>, ghost edge: nat, ghost k: nat, ghost mid: Option<State>)
      requires Valid() && |s.data| < 0x1_0000
      modifies this`wnd, this`wptr, this`right, this`rq, this`nxt, this`taken, this`state, this`orderly
      modifies this`reseq, this`nreseq, this`reseqlen, this`pos
      ensures Valid()
      ensures orderly <==> old(orderly) && (old(state) == Closed || (Slice(peer, s, p) && Near(p, old(taken))))
      ensures orderly ==> Delivered() && Positions()
      ensures orderly ==> right >= old(right)
      ensures out ==> reseq == [] || SeqLt(nxt, reseq[0].seqno)
      ensures orderly && old(state) != Closed ==> edge >= old(right) && Fitted(peer, s, p, old(taken), edge, t)
      ensures if t.Some? then Answered(old(Here()), old(reseq), old(reseqlen), old(Smooth(s)), t.value, out, mid)
              else !out
      ensures t.Some? ==> t.value.ack == s.ack && t.value.rst == s.rst
      ensures t.None? ==> rq == old(rq) && nxt == old(nxt) && reseq == old(reseq)
      ensures t.None? ==> state == old(state) || (old(state) == Closing && state == TimeWait)
      ensures out && orderly && old(Expecting()) ==>
                AllKept(old(reseq), old(pos), k, edge, s, p, old(taken), old(right))
    {
      out, t, edge, k, mid := false, None, right, 0, None;
      if state == Closed {
        return;
      }
      Judge(s, p);
      out, t, edge, k, mid := Arrive(s, p);
    }

    /** The same when the connection is not closed. */
    method Arrive(s: Seg, ghost p: nat)
        returns (out: bool, ghost t: Option<Seg>, ghost edge: nat, ghost k: nat, ghost mid: Option<State>)
      requires Valid() && |s.data| < 0x1_0000 && state != Closed && (orderly ==> Slice(peer, s, p) && Near(p, taken))
      modifies this`wnd, this`wptr, this`right, this`rq, this`nxt, this`taken, this`state
      modifies this`reseq, this`nreseq, this`reseqlen, this`pos
      ensures Valid()
      ensures orderly ==> right >= old(right) && edge >= old(right) && Fitted(peer, s, p, old(taken), edge, t)
      ensures out ==> reseq == [] || SeqLt(nxt, reseq[0].seqno)
      ensures if t.Some? then Answered(old(Here()), old(reseq), old(reseqlen), old(Smooth(s)), t.value, out, mid)
              else !out
      ensures t.Some? ==> t.value.ack == s.ack && t.value.rst == s.rst
      ensures t.None? ==> rq == old(rq) && nxt == old(nxt) && reseq == old(reseq)
      ensures t.None? ==> state == old(state) || (old(state) == Closing && state == TimeWait)
      ensures out && orderly && old(Expecting()) ==>
                AllKept(old(reseq), old(pos), k, edge, s, p, old(taken), old(right))
    {
      var u;
      ghost var q;
      u, q := FitInput(s, p);
      edge, t := right, u;
      out, k, mid := Respond(u, q, s, p, old(right));
    }

    /** What the window let through of s, if anything, is accepted. */
    method Respond(u: Option<Seg>, ghost q: nat, ghost s: Seg, ghost p: nat, ghost right0: nat)
        returns (out: bool, ghost k: nat, ghost mid: Option<State>)
      requires Valid() && state != Closed && (u.Some? ==> |u.value.data| < 0x1_0000)
      requires orderly ==> Fitted(peer, s, p, taken, right, u) && q == Larger(p, taken) && right0 <= right
      modifies this`wnd, this`wptr, this`right, this`rq, this`nxt, this`taken, this`state
      modifies this`reseq, this`nreseq, this`reseqlen, this`pos
      ensures Valid() && (orderly ==> right >= old(right))
      ensures out ==> reseq == [] || SeqLt(nxt, reseq[0].seqno)
      ensures if u.Some? then Answered(old(Here()), old(reseq), old(reseqlen), old(Smooth(u.value)), u.value, out, mid)
              else !out
      ensures u.None? ==> rq == old(rq) && nxt == old(nxt) && reseq == old(reseq)
      ensures u.None? ==> state == old(state) || (old(state) == Closing && state == TimeWait)
      ensures out && orderly && old(Expecting()) ==>
                AllKept(old(reseq), old(pos), k, old(right), s, p, old(taken), right0)
    {
      out, k, mid := false, 0, None;
      if u.Some? {
        out, k, mid := Admit(u.value, q, s, p, right0);
      } else {
        Refuse();
      }
    }

    /** What an in-order segment s that acknowledges and does not reset has brought
        since m: an established connection has handed its text to the reader, moved
        rcv.nxt on at least that far and counted its FIN; so has one that waits for
        the acknowledgement of its own FIN, unless it came with the text. */
    ghost predicate Served(m: Mark, s: Seg)
      reads this`state, this`rq, this`nxt, this`taken
    {
      && (m.state == Established ==>
            && m.rq + s.data <= rq && taken >= m.taken + |s.data| + (if s.fin then 1 else 0)
            && nxt == (m.nxt + (taken - m.taken)) % M)
      && (m.state == Finwait1 && s.data != [] ==>
            (m.rq + s.data <= rq && taken >= m.taken + |s.data| + (if s.fin then 1 else 0))
            || (rq == m.rq && state == Finwait2))
    }

    lemma ToldServed(m: Mark, s: Seg, mid: Option<State>)
      ensures Told(m, s, mid) && Clean(s) ==> Served(m, s)
    {}

    /** Trim an arriving segment to the present window. */
    method FitInput(s: Seg, ghost p: nat) returns (r: Option<Seg>, ghost q: nat)
      requires Valid() && |s.data| < 0x1_0000 && (orderly ==> Slice(peer, s, p) && Near(p, taken))
      modifies this`wnd, this`wptr, this`right
      ensures Valid()
      ensures r.Some? ==> |r.value.data| <= |s.data| && r.value.rst == s.rst && r.value.ack == s.ack
      ensures orderly ==> right >= old(right) && q == Larger(p, taken) && Fitted(peer, s, p, taken, right, r)
    {
      r, q := Fit(s, p);
    }

    /** What the window let through of s is accepted. */
    method Admit(u: Seg, ghost q: nat, ghost s: Seg, ghost p: nat, ghost right0: nat)
        returns (out: bool, ghost k: nat, ghost mid: Option<State>)
      requires Valid() && state != Closed && |u.data| < 0x1_0000
      requires orderly ==> Fitted(peer, s, p, taken, right, Some(u)) && q == Larger(p, taken) && right0 <= right
      modifies this`wnd, this`wptr, this`right, this`rq, this`nxt, this`taken, this`state
      modifies this`reseq, this`nreseq, this`reseqlen, this`pos
      ensures Valid() && (orderly ==> right >= old(right))
      ensures out ==> reseq == [] || SeqLt(nxt, reseq[0].seqno)
      ensures Answered(old(Here()), old(reseq), old(reseqlen), old(Smooth(u)), u, out, mid)
      ensures out && orderly && old(Expecting()) ==>
                AllKept(old(reseq), old(pos), k, old(right), s, p, old(taken), right0)
    {
      ghost var taken0, edge := taken, right;
      out, k, mid := Accept(u, q);
      if out && orderly && old(Expecting()) {
        TakenFrom(peer, s, p, taken0, right0, edge, u, taken);
      }
    }

    ghost method Judge(s: Seg, p: nat)
      requires Valid()
      modifies this`orderly
      ensures Valid() && (orderly <==> old(orderly) && Slice(peer, s, p) && Near(p, taken))
    {
      orderly := orderly && Slice(peer, s, p) && Near(p, taken);
    }

    /** A refused segment still acknowledges. */
    method Refuse()
      requires Valid()
      modifies this`state
      ensures Valid()
      ensures state == old(state) || (old(state) == Closing && state == TimeWait)
    {
      var done := Update();
      if done && state == Closing {
        state := TimeWait;
      }
    }

    /** A segment that survived trimming is queued when it is early, and otherwise
        processed together with whatever it makes due. */
    method Accept(t: Seg, ghost q: nat) returns (out: bool, ghost k: nat, ghost mid: Option<State>)
      requires Valid() && state != Closed && |t.data| < 0x1_0000
      requires orderly ==> Slice(peer, t, q) && taken <= q && q + |t.data| <= right
      modifies this`wnd, this`wptr, this`right, this`rq, this`nxt, this`taken, this`state
      modifies this`reseq, this`nreseq, this`reseqlen, this`pos
      ensures Valid() && (orderly ==> right >= old(right))
      ensures out ==> reseq == [] || SeqLt(nxt, reseq[0].seqno)
      ensures Answered(old(Here()), old(reseq), old(reseqlen), old(Smooth(t)), t, out, mid)
      ensures out && orderly && old(Expecting()) ==>
                && NothingLost(old(reseq), old(pos), k, reseq, old(right), taken) && taken >= old(taken) + |t.data|
                && (t.fin ==> taken == |peer.stream| + 1)
    {
      out, k, mid := false, 0, None;
      Begin(t, q);
      if t.seqno != nxt && (t.data != [] || t.syn || t.fin) {
        Postpone(t, q);
      } else {
        out, k, mid := Deliver(t, q);
      }
    }

    /** An early segment stands past the next byte wanted; any other can be
        processed at once. */
    lemma Begin(t: Seg, q: nat)
      requires Valid() && state != Closed && |t.data| < 0x1_0000
      requires orderly ==> Slice(peer, t, q) && taken <= q && q + |t.data| <= right
      ensures if Early(t, nxt) then orderly ==> taken < q else Going(t, q)
    {
      if orderly {
        InPlace(peer, q, taken, right, t);
        assert Room(|t.data| + reseqlen);
      }
    }

    method Postpone(t: Seg, ghost q: nat)
      requires Valid() && Early(t, nxt) && (orderly ==> Slice(peer, t, q) && taken < q && q + |t.data| <= right)
      modifies this`reseq, this`nreseq, this`reseqlen, this`pos
      ensures Valid() && Answered(old(Here()), old(reseq), old(reseqlen), old(Smooth(t)), t, false, None)
    {
      var kept := AddReseq(t, q);
    }

    /** The user closes: nothing received is touched. */
    method UserClose()
      requires Valid()
      modifies this`state
      ensures Valid() && rq == old(rq) && nxt == old(nxt)
      ensures state == match old(state)
                       case SynReceived => Finwait1
                       case Established => Finwait1
                       case CloseWait => LastAck
                       case Finwait1 => Finwait1
                       case Finwait2 => Finwait2
                       case Closing => Closing
                       case LastAck => LastAck
                       case TimeWait => TimeWait
                       case Closed => State.Closed
    {
      var next := if state == SynReceived || state == Established then Finwait1
                  else if state == CloseWait then LastAck else state;
      state := next;
    }
  }

  /** The next text of the stream makes what was delivered longer. */
  lemma TextExtends(peer: Peer, s: Seg, p: nat, rq: Bytes)
    requires Slice(peer, s, p) && s.data != [] && rq == peer.stream[..p]
    ensures rq + s.data == peer.stream[..p + |s.data|]
  {}

  /** What is due reaches, trimmed, no further than the window, and is settled
      once it is taken. */
  lemma DueFitted(peer: Peer, s: Seg, p: nat, taken: nat, right: nat, r: Option<Seg>)
    requires Fitted(peer, s, p, taken, right, r) && p <= taken
    ensures r.Some? ==> Slice(peer, r.value, taken) && taken + |r.value.data| <= right
    ensures Smaller(p + |s.data|, right) <= taken + (if r.Some? then |r.value.data| else 0)
  {}

  /** A turn that starts with the stream still taken, or taken whole, ends so. */
  lemma StaysExpected(peer: Peer, s: Seg, p: nat, a: State, mid: State, b: State, n: nat, n': nat)
    requires AckFollows(a, mid, true) && (if s.fin then FinFollows(mid, b) else b == mid)
    requires n <= |peer.stream| + 1 && n' == n + Consumed(s, mid) && n' <= |peer.stream| + 1
    requires Slice(peer, s, p) && (Span(s) > 0 ==> p == n)
    requires a == SynReceived || a == Established || (a == CloseWait && n == |peer.stream| + 1)
    ensures b == Established || (b == CloseWait && n' == |peer.stream| + 1)
    ensures n' >= n + |s.data| && (s.fin || a == CloseWait ==> b == CloseWait)
  {}

  lemma AddTwice(x: nat, a: nat, b: nat, y: nat, z: nat)
    requires y == (x + a) % M && z == (y + b) % M
    ensures z == (x + (a + b)) % M
  {
    AddMod(x + a, b);
  }

  lemma InPlace(peer: Peer, q: nat, taken: nat, right: nat, t: Seg)
    requires Slice(peer, t, q) && taken <= q <= right <= taken + MAX_WINDOW
    ensures t.seqno == (peer.base + taken) % M <==> q == taken
  {
    SignedIsDistance(peer.base + q, peer.base + taken);
  }

  lemma CleanTail(q: seq<Seg>)
    requires q != []
    ensures AllClean(q) ==> Clean(q[0]) && AllClean(q[1..])
  {}

  lemma TrimShrinks(nxt: nat, wnd: nat, s: Seg)
    requires Trim(nxt, wnd, s).Some?
    ensures var t := Trim(nxt, wnd, s).value; |t.data| <= |s.data| && t.rst == s.rst && t.ack == s.ack
  {}

  /** The front of the queue stands first, so if it is not due nothing is. */
  lemma FrontIsFirst(peer: Peer, q: seq<Seg>, pos: seq<nat>, taken: nat, right: nat)
    requires q != [] && Placed(peer, q, pos, taken, right) && right <= taken + MAX_WINDOW
    ensures SeqGe((peer.base + taken) % M, q[0].seqno) <==> pos[0] <= taken
    ensures SeqLt((peer.base + taken) % M, q[0].seqno) <==> taken < pos[0]
    ensures forall y :: y in pos ==> pos[0] <= y
    ensures Near(pos[0], taken)
  {
    assert Queued(peer, q[0], pos[0], taken, right);
    ComparisonsAreTrue(peer.base + taken, peer.base + pos[0]);
  }

  ghost predicate Beyond(pos: seq<nat>, n: nat) {
    forall y :: y in pos ==> n < y + LAG
  }

  lemma BeyondTail(p: nat, pos: seq<nat>, n: nat)
    requires Beyond([p] + pos, n)
    ensures Beyond(pos, n)
  {
    assert forall y :: y in pos ==> y in [p] + pos;
  }

  lemma PlacedLater(peer: Peer, q: seq<Seg>, pos: seq<nat>, taken: nat, taken': nat, right: nat)
    requires Placed(peer, q, pos, taken, right)
    requires Beyond(pos, taken')
    ensures Placed(peer, q, pos, taken', right)
  {
    forall i | 0 <= i < |q| ensures Queued(peer, q[i], pos[i], taken', right) {
      assert Queued(peer, q[i], pos[i], taken, right) && pos[i] in pos;
    }
  }

  lemma PlacedTail(peer: Peer, q: seq<Seg>, pos: seq<nat>, taken: nat, right: nat)
    requires q != [] && Placed(peer, q, pos, taken, right)
    ensures Placed(peer, q[1..], pos[1..], taken, right) && Queued(peer, q[0], pos[0], taken, right)
  {
    assert Queued(peer, q[0], pos[0], taken, right);
    forall i | 0 <= i < |q| - 1
      ensures Queued(peer, q[1..][i], pos[1..][i], taken, right)
    {
      assert Queued(peer, q[i + 1], pos[i + 1], taken, right);
    }
  }

  lemma LinkValue(q: seq<Seg>, i: nat, s: Seg)
    requires i <= |q|
    ensures var r := q[..i] + [s] + q[i..];
            |r| == |q| + 1 && Total(r) == Total(q) + |s.data| && multiset(r) == multiset(q) + multiset{s}
  {
    TotalInsert(q, i, s);
    MultisetInsert(q, i, s);
  }

  lemma MultisetInsert(q: seq<Seg>, i: nat, s: Seg)
    requires i <= |q|
    ensures multiset(q[..i] + [s] + q[i..]) == multiset(q) + multiset{s}
  {
    assert q == q[..i] + q[i..];
  }

  lemma TotalInsert(q: seq<Seg>, i: nat, s: Seg)
    requires i <= |q|
    ensures Total(q[..i] + [s] + q[i..]) == Total(q) + |s.data|
  {
    assert q == q[..i] + q[i..];
    TotalConcat(q[..i], q[i..]);
    TotalConcat(q[..i] + [s], q[i..]);
    TotalConcat(q[..i], [s]);
    assert [s][1..] == [];
  }
}
