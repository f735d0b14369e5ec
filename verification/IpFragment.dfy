/** Cutting an IPv4 datagram, or a fragment of one, to a smaller medium. */
module IpFragment {

  type Bytes = seq<bv8>

  const IP4HDR := 20
  const IP_MAX := 0x1_0000
  const MF := 0x2000

  /** An IPv4 packet without options; frag is the raw 16-bit fragment field. */
  datatype Packet = Packet(src: nat, dst: nat, id: nat, frag: nat, data: Bytes)

  predicate More(frag: nat) { frag / 0x2000 % 2 == 1 }
  predicate DontFragment(frag: nat) { frag / 0x4000 % 2 == 1 }
  predicate MustBeZero(frag: nat) { frag / 0x8000 % 2 == 1 }

  /** frag | IP_MF */
  function SetMore(frag: nat): nat {
    if More(frag) then frag else frag + MF
  }

  datatype Outcome = Sent(pkts: seq<Packet>) | CantFragment | TooBig | SegmentTooSmall

  // ---------------------------------------------------------------- pieces

  /** A stretch of a datagram: where it starts, its bytes, and whether more
      follows. */
  datatype Piece = Piece(off: nat, data: Bytes, more: bool)

  /** Cut payload, which starts at off, into pieces of seglen bytes. */
  function Split(payload: Bytes, off: nat, seglen: nat, more: bool): (ps: seq<Piece>)
    requires seglen > 0
    ensures ps != []
    decreases |payload|
  {
    if |payload| <= seglen then [Piece(off, payload, more)]
    else [Piece(off, payload[..seglen], true)] + Split(payload[seglen..], off + seglen, seglen, more)
  }

  /** The pieces tile payload from off on: contiguous, nonempty, on 8-byte
      boundaries, all with more to follow except the last, which says `more`. */
  ghost predicate Tiles(ps: seq<Piece>, payload: Bytes, off: nat, more: bool)
    decreases |ps|
  {
    && ps != [] && ps[0].off == off && off % 8 == 0 && ps[0].data != [] && ps[0].data <= payload
    && (if |ps| == 1 then ps[0].data == payload && ps[0].more == more
        else ps[0].more && Tiles(ps[1..], payload[|ps[0].data|..], off + |ps[0].data|, more))
  }

  lemma {:induction false} SplitTiles(payload: Bytes, off: nat, seglen: nat, more: bool)
    requires payload != [] && off % 8 == 0 && seglen > 0 && seglen % 8 == 0
    ensures Tiles(Split(payload, off, seglen, more), payload, off, more)
    ensures forall p :: p in Split(payload, off, seglen, more) ==> |p.data| <= seglen
    decreases |payload|
  {
    if |payload| > seglen {
      SplitTiles(payload[seglen..], off + seglen, seglen, more);
      var ps := Split(payload, off, seglen, more);
      assert ps[1..] == Split(payload[seglen..], off + seglen, seglen, more);
    }
  }

  /** Cut every piece again, piece i to segments of segs[i] bytes. */
  function SplitAll(ps: seq<Piece>, segs: seq<nat>): seq<Piece>
    requires |segs| == |ps| && forall i :: 0 <= i < |segs| ==> segs[i] > 0
  {
    if ps == [] then []
    else Split(ps[0].data, ps[0].off, segs[0], ps[0].more) + SplitAll(ps[1..], segs[1..])
  }

  lemma TilesFirst(p: Piece, ps: seq<Piece>, payload: Bytes, off: nat, more: bool)
    requires p.off == off && off % 8 == 0 && p.data != [] && p.data <= payload && p.more
    requires Tiles(ps, payload[|p.data|..], off + |p.data|, more)
    ensures Tiles([p] + ps, payload, off, more)
  {
    assert ([p] + ps)[1..] == ps;
  }

  lemma DropConcat(x: Bytes, y: Bytes, n: nat)
    requires n <= |x|
    ensures (x + y)[n..] == x[n..] + y && x[..n] == (x + y)[..n]
  {}

  /** A tiling followed by a tiling of the rest is a tiling. */
  lemma {:induction false} TilesConcat(a: seq<Piece>, x: Bytes, off: nat, b: seq<Piece>, y: Bytes, more: bool)
    requires Tiles(a, x, off, true) && Tiles(b, y, off + |x|, more)
    ensures Tiles(a + b, x + y, off, more)
    decreases |a|
  {
    var n := |a[0].data|;
    DropConcat(x, y, n);
    if |a| > 1 {
      TilesConcat(a[1..], x[n..], off + n, b, y, more);
      TilesFirst(a[0], a[1..] + b, x + y, off, more);
      assert a + b == [a[0]] + (a[1..] + b);
    } else {
      assert x[n..] + y == y;
      TilesFirst(a[0], b, x + y, off, more);
      assert a + b == [a[0]] + b;
    }
  }

  lemma SplitLast(ps: seq<Piece>, segs: seq<nat>)
    requires |ps| == |segs| == 1 && segs[0] > 0
    ensures SplitAll(ps, segs) == Split(ps[0].data, ps[0].off, segs[0], ps[0].more)
  {
    assert SplitAll(ps[1..], segs[1..]) == [];
  }

  /** Refragmenting the pieces of a datagram at gateways, each with its own
      medium, still tiles the datagram. */
  lemma {:induction false} SplitAllTiles(ps: seq<Piece>, segs: seq<nat>, payload: Bytes, off: nat, more: bool)
    requires Tiles(ps, payload, off, more) && |segs| == |ps|
    requires forall i :: 0 <= i < |segs| ==> segs[i] > 0 && segs[i] % 8 == 0
    ensures Tiles(SplitAll(ps, segs), payload, off, more)
    decreases |ps|
  {
    var d := ps[0].data;
    SplitTiles(d, off, segs[0], ps[0].more);
    if |ps| > 1 {
      SplitAllTiles(ps[1..], segs[1..], payload[|d|..], off + |d|, more);
      TilesConcat(Split(d, off, segs[0], true), d, off, SplitAll(ps[1..], segs[1..]), payload[|d|..], more);
      assert d + payload[|d|..] == payload;
    } else {
      SplitLast(ps, segs);
    }
  }

  // ---------------------------------------------------------------- packets

  /** The fragment field of a piece. */
  function Field(p: Piece): nat {
    p.off / 8 + (if p.more then MF else 0)
  }

  /** The packet that carries a piece of the datagram (src, dst, id). */
  function Carry(h: Packet, p: Piece): Packet {
    h.(frag := Field(p), data := p.data)
  }

  function CarryAll(h: Packet, ps: seq<Piece>): (r: seq<Packet>)
    ensures |r| == |ps| && forall i :: 0 <= i < |ps| ==> r[i] == Carry(h, ps[i])
  {
    if ps == [] then [] else [Carry(h, ps[0])] + CarryAll(h, ps[1..])
  }

  lemma FieldMeaning(p: Piece)
    requires p.off % 8 == 0 && p.off < IP_MAX
    ensures Field(p) < 0x4000 && More(Field(p)) == p.more && Field(p) * 8 % IP_MAX == p.off
    ensures Field(p) % 0x2000 == p.off / 8 && !DontFragment(Field(p)) && !MustBeZero(Field(p))
  {}

  /** What the outgoing half of ipoput4 makes of p, from the size test on; freshId is
      what the id counter yields and medialen what the medium carries. */
  ghost function Sending(p: Packet, gating: bool, freshId: nat, medialen: int): Outcome {
    var len, seglen := |p.data| + IP4HDR, (medialen - IP4HDR) / 8 * 8;
    if len >= IP_MAX then TooBig
    else if len <= medialen then Sent([if gating then p else p.(id := freshId, frag := 0)])
    else if DontFragment(p.frag) then CantFragment
    else if seglen < 8 then SegmentTooSmall
    else if gating then Sent(CarryAll(p, Split(p.data, p.frag % 0x2000 * 8, seglen, More(p.frag))))
    else Sent(CarryAll(p.(id := freshId), Split(p.data, 0, seglen, false)))
  }

  /** The same in place; of a packet that a router receives with bytes beyond the
      largest datagram only the kind of outcome is promised. */
  method Output(p: Packet, gating: bool, freshId: nat, medialen: int) returns (o: Outcome)
    requires p.frag < 0x1_0000 && freshId < 0x1_0000
    ensures o.Sent? <==> Sending(p, gating, freshId, medialen).Sent?
    ensures !gating || !o.Sent? || |p.data| + IP4HDR <= medialen || Fits(p) ==>
              o == Sending(p, gating, freshId, medialen)
    ensures o.TooBig? <==> |p.data| + 20 >= 65536
    ensures o.CantFragment? <==> 65536 > |p.data| + 20 > medialen && DontFragment(p.frag)
    ensures o.SegmentTooSmall? <==> 65536 > |p.data| + 20 > medialen && !DontFragment(p.frag) && medialen < 28
    ensures o.Sent? ==> Chunked(o.pkts, p.(id := if gating then p.id else freshId), p.data)
    ensures o.Sent? ==> forall q :: q in o.pkts ==> |q.data| + 20 <= medialen
    ensures o.Sent? ==> forall k :: 0 <= k < |o.pkts| - 1 ==> Filled(o.pkts[k], medialen)
  {
    var len := |p.data| + IP4HDR;
    if len >= IP_MAX {
      return TooBig;
    }
    if len <= medialen {
      JoinedOne(if gating then p else p.(id := freshId, frag := 0));
      return Sent([if gating then p else p.(id := freshId, frag := 0)]);
    }
    if DontFragment(p.frag) {
      return CantFragment;
    }
    var seglen := (medialen - IP4HDR) / 8 * 8;
    if seglen < 8 {
      return SegmentTooSmall;
    }
    var pkts := CutUp(p, gating, freshId, seglen);
    o := Sent(pkts);
  }

  /** The bytes of the packets, one after the other. */
  ghost function Joined(pkts: seq<Packet>): Bytes {
    if pkts == [] then [] else Joined(pkts[..|pkts| - 1]) + pkts[|pkts| - 1].data
  }

  /** The packets carry d in order, under h's addresses and id. */
  ghost predicate Chunked(pkts: seq<Packet>, h: Packet, d: Bytes) {
    && pkts != [] && Joined(pkts) == d
    && (forall q :: q in pkts ==> q.src == h.src && q.dst == h.dst && q.id == h.id)
    && forall k :: 0 <= k < |pkts| - 1 ==> pkts[k].data != [] && |pkts[k].data| % 8 == 0
  }

  /** Not even eight bytes more would go into q on that medium. */
  ghost predicate Filled(q: Packet, medialen: int) {
    |q.data| + 20 <= medialen < |q.data| + 28
  }

  lemma JoinedOne(q: Packet)
    ensures Joined([q]) == q.data
  {
    assert [q][..0] == [] && Joined([q][..0]) == [];
    assert [] + q.data == q.data;
  }

  lemma JoinedNext(pkts: seq<Packet>, q: Packet)
    ensures Joined(pkts + [q]) == Joined(pkts) + q.data
  {
    assert (pkts + [q])[..|pkts|] == pkts;
  }

  /** Where the loop starts, and the loop. */
  method CutUp(p: Packet, gating: bool, freshId: nat, seglen: nat) returns (pkts: seq<Packet>)
    requires seglen >= 8 && seglen % 8 == 0 && 0 < |p.data| && |p.data| + IP4HDR < IP_MAX
    ensures !gating ==> pkts == CarryAll(p.(id := freshId), Split(p.data, 0, seglen, false))
    ensures gating && Fits(p) ==> pkts == CarryAll(p, Split(p.data, p.frag % 0x2000 * 8, seglen, More(p.frag)))
    ensures Chunked(pkts, p.(id := if gating then p.id else freshId), p.data)
    ensures forall k :: 0 <= k < |pkts| ==> |pkts[k].data| <= seglen && (k < |pkts| - 1 ==> |pkts[k].data| == seglen)
  {
    var lid := if gating then p.id else freshId;
    var fragoff := if gating then p.frag * 8 else 0;
    var dlen := |p.data| + fragoff;
    if gating && Fits(p) {
      StartsAt(p);
    }
    pkts := FragmentLoop(p.(id := lid), fragoff, dlen, seglen,
                         if gating then p.frag % 0x2000 * 8 else 0, gating && More(p.frag));
  }

  lemma StartsAt(p: Packet)
    requires Fits(p)
    ensures At(p.frag * 8, p.frag % 0x2000 * 8, More(p.frag)) && p.frag % 0x2000 * 8 + |p.data| < IP_MAX
  {}

  /** An incoming packet whose bytes end within the largest datagram. */
  predicate Fits(p: Packet) {
    p.frag < 0x4000 && p.frag % 0x2000 * 8 + |p.data| <= 0xffff
  }

  /** What the loop writes into the fragment field: its offset carries the more
      bit of a packet that was itself a fragment, 13 bits above the 8-byte units. */
  function FieldAt(fragoff: nat, last: bool): nat {
    if last then fragoff / 8 % 0x1_0000 else SetMore(fragoff / 8 % 0x1_0000)
  }

  /** Where the loop stands in the datagram when its offset is fragoff. */
  ghost predicate At(fragoff: nat, o: nat, more: bool) {
    fragoff == o + (if more then IP_MAX else 0) && o % 8 == 0
  }

  ghost function Rest(h: Packet, rest: Bytes, o: nat, seg: nat, more: bool): seq<Packet>
    requires seg > 0
  {
    if rest == [] then [] else CarryAll(h, Split(rest, o, seg, more))
  }

  lemma FieldAtIsField(fragoff: nat, o: nat, data: Bytes, more: bool, last: bool)
    requires At(fragoff, o, more) && o < IP_MAX
    ensures FieldAt(fragoff, last) == Field(Piece(o, data, !last || more))
  {}

  lemma CarryFirst(h: Packet, p: Piece, ps: seq<Piece>)
    ensures CarryAll(h, [p] + ps) == [Carry(h, p)] + CarryAll(h, ps)
  {
    assert ([p] + ps)[1..] == ps;
  }

  lemma RestTurn(h: Packet, rest: Bytes, o: nat, seg: nat, more: bool, n: nat)
    requires seg > 0 && rest != [] && n == if |rest| <= seg then |rest| else seg
    ensures Rest(h, rest, o, seg, more)
              == [Carry(h, Piece(o, rest[..n], |rest| > seg || more))] + Rest(h, rest[n..], o + n, seg, more)
  {
    var p := Piece(o, rest[..n], |rest| > seg || more);
    CarryFirst(h, p, if |rest| > seg then Split(rest[n..], o + n, seg, more) else []);
    assert |rest| <= seg ==> rest[..n] == rest && [p] + [] == [p];
  }

  /** The loop has sent pkts of the packets `whole` and stands at o, with rest to send. */
  ghost predicate Standing(whole: seq<Packet>, pkts: seq<Packet>, h: Packet, rest: Bytes, fragoff: nat, o: nat,
                           seg: nat, more: bool)
    requires seg > 0
  {
    && o + |rest| < IP_MAX && (rest != [] ==> At(fragoff, o, more))
    && whole == pkts + Rest(h, rest, o, seg, more)
  }

  lemma FieldCarries(h: Packet, data: Bytes, fragoff: nat, o: nat, more: bool, last: bool)
    requires At(fragoff, o, more) && o < IP_MAX
    ensures h.(frag := FieldAt(fragoff, last), data := data) == Carry(h, Piece(o, data, !last || more))
  {
    FieldAtIsField(fragoff, o, data, more, last);
  }

  /** One turn of the loop takes one packet from what is still to come. */
  lemma LoopTurn(whole: seq<Packet>, pkts: seq<Packet>, h: Packet, rest: Bytes, fragoff: nat, o: nat, seg: nat,
                 more: bool, n: nat, pkt: Packet)
    requires seg > 0 && seg % 8 == 0 && rest != [] && n == (if |rest| <= seg then |rest| else seg)
    requires Standing(whole, pkts, h, rest, fragoff, o, seg, more)
    requires pkt == h.(frag := FieldAt(fragoff, |rest| <= seg), data := rest[..n])
    ensures Standing(whole, pkts + [pkt], h, rest[n..], fragoff + n, o + n, seg, more)
  {
    FieldCarries(h, rest[..n], fragoff, o, more, |rest| <= seg);
    RestTurn(h, rest, o, seg, more, n);
    MoveOne(pkts, pkt, Rest(h, rest[n..], o + n, seg, more));
    if |rest| > seg {
      AtNext(fragoff, o, more, seg);
    }
  }

  lemma AtNext(fragoff: nat, o: nat, more: bool, n: nat)
    requires At(fragoff, o, more) && n % 8 == 0
    ensures At(fragoff + n, o + n, more)
  {}

  lemma MoveOne(a: seq<Packet>, p: Packet, b: seq<Packet>)
    ensures a + ([p] + b) == (a + [p]) + b
  {}

  /** The next fragment, which is the last one when the rest fits. */
  method NextFragment(h: Packet, rest: Bytes, fragoff: nat, seg: nat, dlen: nat) returns (pkt: Packet, seglen: nat)
    requires dlen == fragoff + |rest|
    ensures seglen == if |rest| <= seg then |rest| else seg
    ensures pkt == h.(frag := FieldAt(fragoff, |rest| <= seg), data := rest[..seglen])
  {
    seglen := seg;
    var last := fragoff + seglen >= dlen;
    if last {
      seglen := dlen - fragoff;
    }
    pkt := h.(frag := FieldAt(fragoff, last), data := rest[..seglen]);
  }

  /** The loop has sent pkts, all full as long as something is left to send. */
  ghost predicate Emitted(pkts: seq<Packet>, h: Packet, rest: Bytes, seg: nat) {
    && Joined(pkts) + rest == h.data
    && (forall q :: q in pkts ==> q.src == h.src && q.dst == h.dst && q.id == h.id)
    && forall k :: 0 <= k < |pkts| ==> |pkts[k].data| <= seg && (rest != [] || k < |pkts| - 1 ==> |pkts[k].data| == seg)
  }

  lemma SentTurn(pkts: seq<Packet>, h: Packet, rest: Bytes, seg: nat, pkt: Packet, n: nat)
    requires Emitted(pkts, h, rest, seg) && rest != [] && n == (if |rest| <= seg then |rest| else seg)
    requires pkt.src == h.src && pkt.dst == h.dst && pkt.id == h.id && pkt.data == rest[..n]
    ensures Emitted(pkts + [pkt], h, rest[n..], seg)
  {
    JoinedNext(pkts, pkt);
    MoveBytes(Joined(pkts), rest, n);
    var now := pkts + [pkt];
    forall k | 0 <= k < |now|
      ensures |now[k].data| <= seg && (rest[n..] != [] || k < |now| - 1 ==> |now[k].data| == seg)
    {
      assert k < |pkts| ==> now[k] == pkts[k];
    }
  }

  lemma EmittedAll(pkts: seq<Packet>, h: Packet, rest: Bytes, seg: nat)
    requires Emitted(pkts, h, rest, seg) && rest == [] && seg > 0 && seg % 8 == 0 && h.data != []
    ensures Chunked(pkts, h, h.data)
    ensures forall k :: 0 <= k < |pkts| ==> |pkts[k].data| <= seg && (k < |pkts| - 1 ==> |pkts[k].data| == seg)
  {
    assert Joined(pkts) + rest == Joined(pkts);
  }

  lemma MoveBytes(a: Bytes, rest: Bytes, n: nat)
    requires n <= |rest|
    ensures (a + rest[..n]) + rest[n..] == a + rest
  {}

  /** The fragmentation loop, from one packet's data to its fragments. */
  method FragmentLoop(h: Packet, from: nat, dlen: nat, seg: nat, ghost off: nat, ghost more: bool)
      returns (pkts: seq<Packet>)
    requires seg >= 8 && seg % 8 == 0 && dlen == from + |h.data| && |h.data| > 0
    ensures At(from, off, more) && off + |h.data| < IP_MAX ==> pkts == CarryAll(h, Split(h.data, off, seg, more))
    ensures Chunked(pkts, h, h.data)
    ensures forall k :: 0 <= k < |pkts| ==> |pkts[k].data| <= seg && (k < |pkts| - 1 ==> |pkts[k].data| == seg)
  {
    ghost var good := At(from, off, more) && off + |h.data| < IP_MAX;
    ghost var whole := Rest(h, h.data, off, seg, more);
    ghost var o: nat := off;
    pkts := [];
    var fragoff: nat, seglen: nat, rest := from, seg, h.data;
    while fragoff < dlen
      invariant dlen == fragoff + |rest| && (rest != [] ==> seglen == seg)
      invariant good ==> Standing(whole, pkts, h, rest, fragoff, o, seg, more)
      invariant Emitted(pkts, h, rest, seg)
      decreases dlen - fragoff
    {
      var pkt;
      pkt, seglen := NextFragment(h, rest, fragoff, seglen, dlen);
      if good {
        LoopTurn(whole, pkts, h, rest, fragoff, o, seg, more, seglen, pkt);
      }
      SentTurn(pkts, h, rest, seg, pkt, seglen);
      pkts := pkts + [pkt];
      rest := rest[seglen..];
      fragoff := fragoff + seglen;
      o := o + seglen;
    }
    EmittedAll(pkts, h, rest, seg);
  }
}
