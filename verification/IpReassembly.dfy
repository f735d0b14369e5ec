/** Putting IPv4 fragments back together. */
module IpReassembly {
  import opened IpFragment
  import opened Wrappers

  const NFRAG := 100
  const LIFETIME := 30000

  datatype Key = Key(src: nat, dst: nat, id: nat)

  function KeyOf(p: Packet): Key {
    Key(p.src, p.dst, p.id)
  }

  /** A fragment held on a queue: the fragment field and data length of its
      header, its data, and the offset and length it counts for. */
  datatype Block = Block(frag: nat, hlen: nat, data: Bytes, foff: nat, flen: nat)

  function BlockOf(p: Packet): Block {
    Block(p.frag, |p.data|, p.data, p.frag * 8 % 0x1_0000, |p.data|)
  }

  datatype Queue = Queue(key: Key, blist: seq<Block>, age: nat)

  /** The queues in use, newest first, and how many are free. */
  datatype Frags = Frags(active: seq<Queue>, free: nat)

  // ---------------------------------------------------------------- one queue

  function Take(s: Bytes, n: nat): Bytes {
    if n <= |s| then s[..n] else s
  }

  function Drop(s: Bytes, n: nat): Bytes {
    if n <= |s| then s[n..] else []
  }

  /** Where a fragment at foff goes: before the first one that is not to its left. */
  function Place(bs: seq<Block>, foff: nat): (i: nat)
    ensures i <= |bs| && (forall j :: 0 <= j < i ==> bs[j].foff < foff) && (i < |bs| ==> bs[i].foff >= foff)
  {
    if bs == [] || bs[0].foff >= foff then 0 else 1 + Place(bs[1..], foff)
  }

  /** Take out of bs what lies before fend. */
  function TrimFront(bs: seq<Block>, fend: nat): seq<Block> {
    if bs == [] || fend <= bs[0].foff then bs
    else if fend - bs[0].foff < bs[0].flen then
      var ovlap := fend - bs[0].foff;
      [Block(bs[0].frag, bs[0].hlen, Drop(bs[0].data, ovlap), (bs[0].foff + ovlap) % 0x1_0000, bs[0].flen - ovlap)]
      + bs[1..]
    else TrimFront(bs[1..], fend)
  }

  /** Where the last of left reaches past foff. */
  function Overlap(left: seq<Block>, foff: nat): int {
    if left == [] then 0 else left[|left| - 1].foff + left[|left| - 1].flen - foff
  }

  /** Cut the last of left back to foff. */
  function TrimBack(left: seq<Block>, foff: nat): seq<Block>
    requires left != [] ==> left[|left| - 1].foff < foff
  {
    var n := |left| - 1;
    var ovlap := Overlap(left, foff);
    if ovlap > 0 then left[..n] + [left[n].(flen := left[n].flen - ovlap)] else left
  }

  /** Put fragment b on the queue; None when it is dropped as already covered. */
  function Insert(bs: seq<Block>, b: Block): Option<seq<Block>> {
    var i := Place(bs, b.foff);
    var ovlap := Overlap(bs[..i], b.foff);
    if ovlap > 0 && ovlap >= b.flen then None
    else Some(TrimBack(bs[..i], b.foff) + ([b] + TrimFront(bs[i..], b.foff + b.flen)))
  }

  /** Is there a fragment without the more bit at the end of a gapless run from posn? */
  function Complete(bs: seq<Block>, posn: nat): bool {
    bs != [] && bs[0].foff == posn && (!More(bs[0].frag) || Complete(bs[1..], posn + bs[0].flen))
  }

  function TailData(bs: seq<Block>): Bytes {
    if bs == [] then [] else Take(bs[0].data, bs[0].flen) + TailData(bs[1..])
  }

  /** The returned packet: the first block as long as its header says, then the
      others as long as they count for. */
  function Assemble(k: Key, bs: seq<Block>): Packet
    requires bs != []
  {
    Packet(k.src, k.dst, k.id, bs[0].frag, Take(bs[0].data, bs[0].hlen) + TailData(bs[1..]))
  }

  // ---------------------------------------------------------------- all queues

  function Locate(qs: seq<Queue>, key: Key): (i: nat)
    ensures i <= |qs| && (forall j :: 0 <= j < i ==> qs[j].key != key) && (i < |qs| ==> qs[i].key == key)
  {
    if qs == [] || qs[0].key == key then 0 else 1 + Locate(qs[1..], key)
  }

  /** The queues whose time is not up. */
  function Purge(qs: seq<Queue>, now: nat): (r: seq<Queue>)
    ensures |r| <= |qs|
  {
    if qs == [] then [] else (if qs[0].age < now then [] else [qs[0]]) + Purge(qs[1..], now)
  }

  /** Exactly the expired queues are gone. */
  lemma {:induction false} PurgeExpired(qs: seq<Queue>, now: nat)
    ensures forall q :: q in Purge(qs, now) <==> q in qs && q.age >= now
    ensures (forall q :: q in qs ==> q.age >= now) ==> Purge(qs, now) == qs
  {
    if qs != [] {
      PurgeExpired(qs[1..], now);
      assert qs == [qs[0]] + qs[1..];
    }
  }

  /** A packet that is no fragment although its fragment field is not zero. */
  predicate Whole(frag: nat) {
    !More(frag) && frag % 0x2000 == 0
  }

  /** Take a queue for (key, b), evicting the oldest when none is free. */
  function Allot(active: seq<Queue>, free: nat, key: Key, b: Block, now: nat): Frags
    requires free > 0 || active != []
  {
    var q := Queue(key, [b], now + LIFETIME);
    if free > 0 then Frags([q] + active, free - 1) else Frags([q] + active[..|active| - 1], 0)
  }

  /** Put b on the queue qs[i]. */
  function Extend(qs: seq<Queue>, free: nat, i: nat, b: Block): (Frags, Option<Packet>)
    requires i < |qs|
  {
    match Insert(qs[i].blist, b)
    case None => (Frags(qs, free), None)
    case Some(bs) =>
      if Complete(bs, 0) then (Frags(qs[..i] + qs[i + 1..], free + 1), Some(Assemble(qs[i].key, bs)))
      else (Frags(qs[i := qs[i].(blist := bs)], free), None)
  }

  /** What becomes of p when the search for its queue has stopped at i. */
  function Handle(qs: seq<Queue>, free: nat, i: nat, p: Packet, now: nat): (Frags, Option<Packet>)
    requires i <= |qs| && |qs| + free == NFRAG
  {
    if Whole(p.frag) then
      (if i < |qs| then Frags(qs[..i] + qs[i + 1..], free + 1) else Frags(qs, free), Some(p))
    else if i == |qs| then (Allot(qs, free, KeyOf(p), BlockOf(p), now), None)
    else Extend(qs, free, i, BlockOf(p))
  }

  /** What ip4reassemble does with packet p at time now. */
  function Reassemble(st: Frags, p: Packet, now: nat): (Frags, Option<Packet>)
    requires |st.active| + st.free == NFRAG
  {
    if MustBeZero(p.frag) then (st, None)
    else
      var i := Locate(st.active, KeyOf(p));
      var kept := Purge(st.active[..i], now);
      Handle(kept + st.active[i..], st.free + i - |kept|, |kept|, p, now)
  }

  // ---------------------------------------------------------------- slices of one datagram

  ghost function Range(a: nat, b: nat): (r: set<nat>)
    ensures forall x :: x in r <==> a <= x < b
    decreases b - a
  {
    if a >= b then {} else {a} + Range(a + 1, b)
  }

  ghost function Span(b: Block): set<nat> {
    Range(b.foff, b.foff + b.flen)
  }

  /** The byte positions a queue covers. */
  ghost function Cover(bs: seq<Block>): set<nat> {
    if bs == [] then {} else Span(bs[0]) + Cover(bs[1..])
  }

  /** What b counts for is that stretch of payload, and it says that more
      follows exactly when it does not reach the end. */
  ghost predicate Slice(b: Block, payload: Bytes) {
    && 0 < b.flen <= |b.data| && b.foff + b.flen <= |payload|
    && b.data[..b.flen] == payload[b.foff..b.foff + b.flen]
    && More(b.frag) == (b.foff + b.flen < |payload|)
    && (b.foff == 0 ==> b.flen <= b.hlen == |b.data| && b.data <= payload && b.frag % 0x2000 == 0)
  }

  /** Sorted, disjoint slices from position lo on. */
  ghost predicate Slices(bs: seq<Block>, lo: nat, payload: Bytes) {
    bs == [] || (lo <= bs[0].foff && Slice(bs[0], payload) && Slices(bs[1..], bs[0].foff + bs[0].flen, payload))
  }

  lemma SliceTail(b: Block, n: nat, payload: Bytes) returns (c: Block)
    requires Slice(b, payload) && 0 < n < b.flen && |payload| < 0x1_0000
    ensures c == Block(b.frag, b.hlen, Drop(b.data, n), (b.foff + n) % 0x1_0000, b.flen - n)
    ensures Slice(c, payload) && c.foff == b.foff + n
  {
    c := Block(b.frag, b.hlen, b.data[n..], b.foff + n, b.flen - n);
    assert c.data[..c.flen] == b.data[..b.flen][n..];
  }

  lemma SliceHead(b: Block, n: nat, payload: Bytes)
    requires Slice(b, payload) && 0 < n < b.flen && b.foff + b.flen < |payload|
    ensures Slice(b.(flen := n), payload)
  {
    assert b.data[..n] == b.data[..b.flen][..n];
  }

  lemma {:induction false} SlicesFrom(bs: seq<Block>, lo: nat, lower: nat, payload: Bytes)
    requires Slices(bs, lo, payload) && (lower <= lo || (bs != [] && lower <= bs[0].foff))
    ensures Slices(bs, lower, payload)
    ensures forall x :: x in Cover(bs) ==> lo <= x < |payload|
  {
    if bs != [] {
      var end := bs[0].foff + bs[0].flen;
      SlicesFrom(bs[1..], end, end, payload);
    }
  }

  lemma {:induction false} TrimFrontSlices(bs: seq<Block>, lo: nat, from: nat, fend: nat, payload: Bytes)
    requires Slices(bs, lo, payload) && from <= lo && from < fend && |payload| < 0x1_0000
    ensures Slices(TrimFront(bs, fend), fend, payload)
    ensures Cover(bs) + Range(from, fend) == Cover(TrimFront(bs, fend)) + Range(from, fend)
  {
    if bs != [] && fend > bs[0].foff {
      var end := bs[0].foff + bs[0].flen;
      if fend < end {
        var b := SliceTail(bs[0], fend - bs[0].foff, payload);
        assert TrimFront(bs, fend) == [b] + bs[1..];
        assert Span(bs[0]) + Range(from, fend) == Span(b) + Range(from, fend);
      } else {
        TrimFrontSlices(bs[1..], end, from, fend, payload);
        assert Span(bs[0]) <= Range(from, fend);
      }
    }
  }

  lemma PlaceBehind(bs: seq<Block>, foff: nat)
    requires bs != [] && bs[0].foff < foff
    ensures var i, j := Place(bs, foff), Place(bs[1..], foff);
            i == j + 1 && bs[..i] == [bs[0]] + bs[1..][..j] && bs[i..] == bs[1..][j..]
  {}

  lemma TrimBackBehind(p: Block, left: seq<Block>, foff: nat)
    requires left != [] && left[|left| - 1].foff < foff
    ensures Overlap([p] + left, foff) == Overlap(left, foff)
    ensures TrimBack([p] + left, foff) == [p] + TrimBack(left, foff)
  {
    var n := |left| - 1;
    assert ([p] + left)[..n + 1] == [p] + left[..n];
    assert ([p] + left)[n + 1] == left[n];
    var last := [left[n].(flen := left[n].flen - Overlap(left, foff))];
    assert ([p] + left[..n]) + last == [p] + (left[..n] + last);
  }

  /** Behind the first fragment, Insert works as on the rest of the queue. */
  lemma InsertBehind(bs: seq<Block>, b: Block)
    requires bs != [] && Place(bs[1..], b.foff) > 0 && bs[0].foff < b.foff
    ensures Insert(bs, b) == match Insert(bs[1..], b)
                             case None => None
                             case Some(r) => Some([bs[0]] + r)
  {
    var t := bs[1..];
    var j := Place(t, b.foff);
    PlaceBehind(bs, b.foff);
    TrimBackBehind(bs[0], t[..j], b.foff);
    var end := [b] + TrimFront(t[j..], b.foff + b.flen);
    assert ([bs[0]] + TrimBack(t[..j], b.foff)) + end == [bs[0]] + (TrimBack(t[..j], b.foff) + end);
  }

  lemma InsertFirst(bs: seq<Block>, b: Block)
    requires Place(bs, b.foff) == 0
    ensures Insert(bs, b) == Some([b] + TrimFront(bs, b.foff + b.flen))
  {
    assert bs[..0] == [] && bs[0..] == bs;
    assert [] + ([b] + TrimFront(bs, b.foff + b.flen)) == [b] + TrimFront(bs, b.foff + b.flen);
  }

  lemma InsertSecond(bs: seq<Block>, b: Block)
    requires bs != [] && bs[0].foff < b.foff && Place(bs[1..], b.foff) == 0
    ensures var end := bs[0].foff + bs[0].flen;
            Insert(bs, b) == if end > b.foff && end - b.foff >= b.flen then None
            else Some([if end > b.foff then bs[0].(flen := b.foff - bs[0].foff) else bs[0]]
                      + ([b] + TrimFront(bs[1..], b.foff + b.flen)))
  {
    assert Place(bs, b.foff) == 1 && bs[..1] == [bs[0]];
    assert Overlap([bs[0]], b.foff) == bs[0].foff + bs[0].flen - b.foff;
    var c := bs[0].(flen := b.foff - bs[0].foff);
    assert Overlap([bs[0]], b.foff) > 0 ==> [bs[0]][..0] + [c] == [c] && TrimBack([bs[0]], b.foff) == [c];
  }

  lemma InsertFirstSlices(bs: seq<Block>, lo: nat, b: Block, payload: Bytes)
    requires Slices(bs, lo, payload) && lo <= b.foff && Slice(b, payload) && |payload| < 0x1_0000
    requires Place(bs, b.foff) == 0
    ensures var r := [b] + TrimFront(bs, b.foff + b.flen);
            Slices(r, b.foff, payload) && Cover(r) == Cover(bs) + Span(b)
  {
    SlicesFrom(bs, lo, if bs == [] then lo else b.foff, payload);
    TrimFrontSlices(bs, b.foff, b.foff, b.foff + b.flen, payload);
    var r := [b] + TrimFront(bs, b.foff + b.flen);
    assert r[1..] == TrimFront(bs, b.foff + b.flen);
  }

  /** A slice in front of slices. */
  lemma SlicesJoin(c: Block, r: seq<Block>, lo: nat, payload: Bytes)
    requires lo <= c.foff && Slice(c, payload) && Slices(r, c.foff + c.flen, payload)
    ensures Slices([c] + r, lo, payload) && Cover([c] + r) == Span(c) + Cover(r)
  {
    assert ([c] + r)[1..] == r;
  }

  /** What the fragment in front of b keeps. */
  lemma CutFront(p: Block, b: Block, payload: Bytes) returns (c: Block)
    requires Slice(p, payload) && Slice(b, payload) && p.foff < b.foff && p.foff + p.flen < b.foff + b.flen
    ensures c == if p.foff + p.flen > b.foff then p.(flen := b.foff - p.foff) else p
    ensures Slice(c, payload) && c.foff + c.flen <= b.foff && Span(p) + Span(b) == Span(c) + Span(b)
  {
    c := p;
    if p.foff + p.flen > b.foff {
      SliceHead(p, b.foff - p.foff, payload);
      c := p.(flen := b.foff - p.foff);
    }
  }

  lemma InsertSecondSlices(bs: seq<Block>, lo: nat, b: Block, payload: Bytes)
    requires Slices(bs, lo, payload) && Slice(b, payload) && |payload| < 0x1_0000
    requires bs != [] && bs[0].foff < b.foff && Place(bs[1..], b.foff) == 0
    ensures Insert(bs, b).None? ==> Span(b) <= Cover(bs)
    ensures Insert(bs, b).Some? ==>
              Slices(Insert(bs, b).value, lo, payload) && Cover(Insert(bs, b).value) == Cover(bs) + Span(b)
  {
    InsertSecond(bs, b);
    var p, t := bs[0], bs[1..];
    var end := p.foff + p.flen;
    if Insert(bs, b).None? {
      assert Span(b) <= Span(p);
    } else {
      SlicesFrom(t, end, if t == [] then end else b.foff, payload);
      InsertFirstSlices(t, b.foff, b, payload);
      var r := [b] + TrimFront(t, b.foff + b.flen);
      var c := CutFront(p, b, payload);
      SlicesFrom(r, b.foff, c.foff + c.flen, payload);
      SlicesJoin(c, r, lo, payload);
    }
  }

  /** A fragment of the datagram leaves a queue of sorted, disjoint slices of it,
      which covers exactly what it did and the fragment. */
  lemma {:induction false} InsertSlices(bs: seq<Block>, lo: nat, b: Block, payload: Bytes)
    requires Slices(bs, lo, payload) && lo <= b.foff && Slice(b, payload) && |payload| < 0x1_0000
    ensures Insert(bs, b).None? ==> Span(b) <= Cover(bs)
    ensures Insert(bs, b).Some? ==>
              Slices(Insert(bs, b).value, lo, payload) && Cover(Insert(bs, b).value) == Cover(bs) + Span(b)
  {
    if Place(bs, b.foff) == 0 {
      InsertFirst(bs, b);
      InsertFirstSlices(bs, lo, b, payload);
      SlicesFrom([b] + TrimFront(bs, b.foff + b.flen), b.foff, lo, payload);
    } else if Place(bs[1..], b.foff) == 0 {
      InsertSecondSlices(bs, lo, b, payload);
    } else {
      var end := bs[0].foff + bs[0].flen;
      assert end <= b.foff;
      InsertBehind(bs, b);
      InsertSlices(bs[1..], end, b, payload);
      if Insert(bs[1..], b).Some? {
        SlicesJoin(bs[0], Insert(bs[1..], b).value, lo, payload);
      }
    }
  }

  lemma CancelUnion(a: set<nat>, b: set<nat>, c: set<nat>)
    requires a !! b && a !! c
    ensures a + b == a + c <==> b == c
  {
    if a + b == a + c {
      assert b == (a + b) - a && c == (a + c) - a;
    }
  }

  /** The completeness walk succeeds exactly when nothing is missing. */
  lemma {:induction false} CompleteIffCovered(bs: seq<Block>, posn: nat, payload: Bytes)
    requires Slices(bs, posn, payload) && posn < |payload|
    ensures Complete(bs, posn) <==> Cover(bs) == Range(posn, |payload|)
  {
    if bs == [] {
      assert posn in Range(posn, |payload|);
    } else if bs[0].foff != posn {
      SlicesFrom(bs, bs[0].foff, bs[0].foff, payload);
      assert posn !in Cover(bs) && posn in Range(posn, |payload|);
    } else {
      var next := posn + bs[0].flen;
      SlicesFrom(bs[1..], next, next, payload);
      CancelUnion(Span(bs[0]), Cover(bs[1..]), Range(next, |payload|));
      assert Range(posn, |payload|) == Span(bs[0]) + Range(next, |payload|);
      if next == |payload| {
        assert bs[1..] == [];
      } else {
        CompleteIffCovered(bs[1..], next, payload);
      }
    }
  }

  /** What a complete queue counts for is the rest of the payload. */
  lemma {:induction false} CompleteData(bs: seq<Block>, posn: nat, payload: Bytes)
    requires Slices(bs, posn, payload) && posn < |payload| && Complete(bs, posn)
    ensures TailData(bs) == payload[posn..]
  {
    var next := posn + bs[0].flen;
    if next == |payload| {
      assert bs[1..] == [] by {
        SlicesFrom(bs[1..], next, next, payload);
      }
      assert payload[posn..next] == payload[posn..];
    } else {
      CompleteData(bs[1..], next, payload);
      assert payload[posn..] == payload[posn..next] + payload[next..];
    }
  }

  /** A complete queue of slices yields the payload if and only if its first
      fragment has not been cut back by an overlapping one. */
  lemma AssembleExact(k: Key, bs: seq<Block>, payload: Bytes)
    requires Slices(bs, 0, payload) && payload != [] && Complete(bs, 0)
    ensures Assemble(k, bs).data == payload <==> bs[0].flen == bs[0].hlen
  {
    CompleteData(bs, 0, payload);
    assert bs[0].data[..bs[0].flen] == payload[..bs[0].flen];
    assert TailData(bs) == bs[0].data[..bs[0].flen] + TailData(bs[1..]);
    var d := Assemble(k, bs).data;
    assert |d| == |payload| + bs[0].hlen - bs[0].flen;
  }

  lemma BlockOfPiece(h: Packet, p: Piece)
    requires p.off % 8 == 0 && p.off < 0x1_0000
    ensures BlockOf(Carry(h, p)) == Block(Field(p), |p.data|, p.data, p.off, |p.data|)
    ensures More(Field(p)) == p.more && Field(p) % 0x2000 == p.off / 8
  {
    FieldMeaning(p);
  }

  /** Two overlapping fragments of a 24-byte datagram come back as 32 bytes. */
  lemma OverlapLengthens(payload: Bytes, k: Key)
    requires |payload| == 24
    ensures var h := Packet(k.src, k.dst, k.id, 0, []);
            var a := BlockOf(Carry(h, Piece(0, payload[..16], true)));
            var b := BlockOf(Carry(h, Piece(8, payload[8..], false)));
            && Slice(a, payload) && Slice(b, payload) && Insert([a], b).Some?
            && Complete(Insert([a], b).value, 0) && |Assemble(k, Insert([a], b).value).data| == 32
  {
    var h := Packet(k.src, k.dst, k.id, 0, []);
    var a, b := BlockOf(Carry(h, Piece(0, payload[..16], true))), BlockOf(Carry(h, Piece(8, payload[8..], false)));
    BlockOfPiece(h, Piece(0, payload[..16], true));
    BlockOfPiece(h, Piece(8, payload[8..], false));
    assert [a][1..] == [];
    InsertSecond([a], b);
    CutPair(a.(flen := 8), b, k);
  }

  /** A first block of 16 bytes cut back to 8, and 16 bytes behind it. */
  lemma CutPair(c: Block, b: Block, k: Key)
    requires c.foff == 0 && c.flen == 8 && c.hlen == |c.data| == 16 && b.foff == 8 && b.flen == |b.data| == 16
    requires More(c.frag) && !More(b.frag)
    ensures [c] + ([b] + []) == [c, b] && Complete([c, b], 0) && |Assemble(k, [c, b]).data| == 32
  {
    assert [c, b][1..] == [b] && Complete([b], 8);
    assert [b][1..] == [] && TailData([b]) == b.data[..16];
  }
}
