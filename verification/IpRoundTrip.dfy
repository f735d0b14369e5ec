/** Fragmenting a datagram, also at gateways, and reassembling it from any
    arrivals of the fragments. */
module IpRoundTrip {
  import opened IpFragment
  import opened IpReassembly
  import opened IpArrivals
  import opened Wrappers

  datatype Event = Event(p: Packet, now: nat)

  // ---------------------------------------------------------------- runs

  /** The queues after the arrivals es. */
  ghost function After(st: Frags, es: seq<Event>): (r: Frags)
    requires Valid(st)
    ensures Valid(r)
  {
    if es == [] then st
    else
      var n := |es| - 1;
      var s := After(st, es[..n]);
      OtherArrival(s, es[n].p, es[n].now, KeyOf(es[n].p));
      Reassemble(s, es[n].p, es[n].now).0
  }

  /** Only fragments in blocks arrive for the datagram key, and no other packet
      times it out or evicts it. */
  ghost predicate Calm(st: Frags, es: seq<Event>, key: Key, payload: Bytes, blocks: set<Block>)
    requires Valid(st)
  {
    es == [] ||
    var n := |es| - 1;
    && Calm(st, es[..n], key, payload, blocks)
    && if KeyOf(es[n].p) == key then Fragment(es[n].p, payload, blocks)
       else Quiet(After(st, es[..n]), es[n].p, es[n].now, key)
  }

  /** What the receiver should have after es: the positions in the fragments that
      arrived since the datagram was last complete. */
  ghost function Collected(es: seq<Event>, key: Key, n: nat): set<nat> {
    if es == [] then {}
    else
      var c := Collected(es[..|es| - 1], key, n);
      var p := es[|es| - 1].p;
      if KeyOf(p) == key then Next(c, BlockOf(p), n) else c
  }

  lemma {:induction false} RunTracks(st: Frags, es: seq<Event>, key: Key, payload: Bytes, blocks: set<Block>)
    requires Valid(st) && Sound(payload, blocks) && Find(st.active, key).None? && Calm(st, es, key, payload, blocks)
    ensures Tracks(After(st, es), key, payload, Collected(es, key, |payload|), blocks)
  {
    if es != [] {
      var n := |es| - 1;
      RunTracks(st, es[..n], key, payload, blocks);
      var s := After(st, es[..n]);
      if KeyOf(es[n].p) == key {
        OurArrival(s, es[n].p, es[n].now, payload, Collected(es[..n], key, |payload|), blocks);
      } else {
        OtherArrival(s, es[n].p, es[n].now, key);
      }
    }
  }

  /** In every run, a fragment brings the datagram out exactly when it supplies
      the last missing bytes. It is then the datagram that was sent exactly when its
      first fragment has not been cut back, as when no two fragments overlap; and it
      still says that more follows. */
  lemma DeliveredWhenCovered(st: Frags, es: seq<Event>, e: Event, payload: Bytes, blocks: set<Block>)
    requires Valid(st) && Sound(payload, blocks) && Find(st.active, KeyOf(e.p)).None?
    requires Calm(st, es, KeyOf(e.p), payload, blocks) && Fragment(e.p, payload, blocks)
    ensures var o := Reassemble(After(st, es), e.p, e.now).1;
            && (o.Some? <==> Collected(es, KeyOf(e.p), |payload|) + Span(BlockOf(e.p)) == Range(0, |payload|))
            && (o.Some? ==> KeyOf(o.value) == KeyOf(e.p) && Begins(o.value))
            && (o.Some? ==>
                  (o.value.data == payload <==> FirstUncut(Find(After(st, es).active, KeyOf(e.p)), BlockOf(e.p))))
            && (o.Some? && Apart(blocks) ==> o.value.data == payload)
  {
    RunTracks(st, es, KeyOf(e.p), payload, blocks);
    OurArrival(After(st, es), e.p, e.now, payload, Collected(es, KeyOf(e.p), |payload|), blocks);
  }

  // ---------------------------------------------------------------- tilings

  /** Piece p is a stretch of payload, which starts at off. */
  ghost predicate Sits(p: Piece, payload: Bytes, off: nat) {
    && off <= p.off && p.off % 8 == 0 && 0 < |p.data| && p.off + |p.data| <= off + |payload|
    && p.data == payload[p.off - off..p.off - off + |p.data|]
  }

  lemma SitsBehind(p: Piece, payload: Bytes, off: nat, d: nat)
    requires d <= |payload| && Sits(p, payload[d..], off + d)
    ensures Sits(p, payload, off)
  {
    var k := p.off - off;
    assert payload[d..][k - d..k - d + |p.data|] == payload[k..k + |p.data|];
  }

  lemma {:induction false} TileAt(ps: seq<Piece>, payload: Bytes, off: nat, more: bool, i: nat)
    requires Tiles(ps, payload, off, more) && i < |ps|
    ensures Sits(ps[i], payload, off) && (i > 0 ==> ps[i].off > off) && ps[i].more == (i < |ps| - 1 || more)
    ensures i < |ps| - 1 <==> ps[i].off + |ps[i].data| < off + |payload|
  {
    if i > 0 {
      var d := |ps[0].data|;
      TileAt(ps[1..], payload[d..], off + d, more, i - 1);
      SitsBehind(ps[i], payload, off, d);
    } else if |ps| > 1 {
      assert Tiles(ps[1..], payload[|ps[0].data|..], off + |ps[0].data|, more);
    }
  }

  lemma {:induction false} TilesApart(ps: seq<Piece>, payload: Bytes, off: nat, more: bool, i: nat, j: nat)
    requires Tiles(ps, payload, off, more) && i < j < |ps|
    ensures ps[i].off + |ps[i].data| <= ps[j].off
  {
    var d := |ps[0].data|;
    if i == 0 {
      TileAt(ps[1..], payload[d..], off + d, more, j - 1);
    } else {
      TilesApart(ps[1..], payload[d..], off + d, more, i - 1, j - 1);
    }
  }

  lemma {:induction false} TilesCover(ps: seq<Piece>, payload: Bytes, off: nat, more: bool, x: nat) returns (i: nat)
    requires Tiles(ps, payload, off, more) && off <= x < off + |payload|
    ensures i < |ps| && ps[i].off <= x < ps[i].off + |ps[i].data|
  {
    var d := |ps[0].data|;
    if x < off + d {
      i := 0;
    } else {
      var k := TilesCover(ps[1..], payload[d..], off + d, more, x);
      i := k + 1;
    }
  }

  // ---------------------------------------------------------------- round trip

  ghost function PieceBlock(h: Packet, p: Piece): Block {
    BlockOf(Carry(h, p))
  }

  ghost function BlocksOf(h: Packet, ps: seq<Piece>): set<Block> {
    set i | 0 <= i < |ps| :: PieceBlock(h, ps[i])
  }

  lemma PieceSlice(h: Packet, ps: seq<Piece>, payload: Bytes, i: nat)
    requires Tiles(ps, payload, 0, false) && |payload| < IP_MAX && i < |ps| && |ps| > 1
    ensures var b := PieceBlock(h, ps[i]);
            b.foff == ps[i].off && b.flen == |ps[i].data| == b.hlen && Slice(b, payload)
    ensures Fragment(Carry(h, ps[i]), payload, BlocksOf(h, ps))
  {
    TileAt(ps, payload, 0, false, i);
    FieldMeaning(ps[i]);
    var b := PieceBlock(h, ps[i]);
    assert b.data[..b.flen] == b.data;
    assert b in BlocksOf(h, ps);
  }

  lemma PiecesSound(h: Packet, ps: seq<Piece>, payload: Bytes)
    requires Tiles(ps, payload, 0, false) && |payload| < IP_MAX && |ps| > 1
    ensures Sound(payload, BlocksOf(h, ps)) && Apart(BlocksOf(h, ps))
  {
    var blocks := BlocksOf(h, ps);
    forall b | b in blocks
      ensures Slice(b, payload) && b.flen == b.hlen
    {
      var i :| 0 <= i < |ps| && b == PieceBlock(h, ps[i]);
      PieceSlice(h, ps, payload, i);
    }
    forall b, c | b in blocks && c in blocks
      ensures b == c || b.foff + b.flen <= c.foff || c.foff + c.flen <= b.foff
    {
      var i :| 0 <= i < |ps| && b == PieceBlock(h, ps[i]);
      var j :| 0 <= j < |ps| && c == PieceBlock(h, ps[j]);
      PieceSlice(h, ps, payload, i);
      PieceSlice(h, ps, payload, j);
      if i < j {
        TilesApart(ps, payload, 0, false, i, j);
      } else if j < i {
        TilesApart(ps, payload, 0, false, j, i);
      }
    }
  }

  /** Piece i is among the arrivals. */
  ghost predicate Arrived(es: seq<Event>, h: Packet, ps: seq<Piece>, i: nat)
    requires i < |ps|
  {
    exists j :: 0 <= j < |es| && es[j].p == Carry(h, ps[i])
  }

  ghost predicate AllArrived(es: seq<Event>, h: Packet, ps: seq<Piece>) {
    forall i :: 0 <= i < |ps| ==> Arrived(es, h, ps, i)
  }

  lemma OurPiece(p: Packet, h: Packet, ps: seq<Piece>, payload: Bytes) returns (i: nat)
    requires KeyOf(p) == KeyOf(h) && Fragment(p, payload, BlocksOf(h, ps))
    ensures i < |ps| && p == Carry(h, ps[i])
  {
    i :| i < |ps| && BlockOf(p) == PieceBlock(h, ps[i]);
  }

  lemma ArrivedStep(es: seq<Event>, h: Packet, ps: seq<Piece>, i: nat)
    requires es != [] && i < |ps|
    ensures Arrived(es, h, ps, i) <==> Arrived(es[..|es| - 1], h, ps, i) || es[|es| - 1].p == Carry(h, ps[i])
  {}

  /** While some piece is missing, a byte of piece i has been collected if and
      only if piece i has arrived. */
  lemma {:induction false} CollectedPieces(st: Frags, es: seq<Event>, h: Packet, ps: seq<Piece>, payload: Bytes,
                                           m: nat, i: nat)
    requires Valid(st) && Tiles(ps, payload, 0, false) && |payload| < IP_MAX && |ps| > 1 && m < |ps| && i < |ps|
    requires Calm(st, es, KeyOf(h), payload, BlocksOf(h, ps)) && !Arrived(es, h, ps, m)
    ensures Arrived(es, h, ps, i) ==> Span(PieceBlock(h, ps[i])) <= Collected(es, KeyOf(h), |payload|)
    ensures !Arrived(es, h, ps, i) ==> ps[i].off !in Collected(es, KeyOf(h), |payload|)
    decreases |es|
  {
    if es != [] {
      var n := |es| - 1;
      var before := es[..n];
      ArrivedStep(es, h, ps, m);
      CollectedPieces(st, before, h, ps, payload, m, i);
      CollectedPieces(st, before, h, ps, payload, m, m);
      if KeyOf(es[n].p) == KeyOf(h) {
        var j := OurPiece(es[n].p, h, ps, payload);
        assert Arrived(es, h, ps, j);
        CollectOne(h, ps, payload, Collected(before, KeyOf(h), |payload|), m, j);
        MissingOutside(h, ps, payload, i, j);
      }
      ArrivedStep(es, h, ps, i);
    }
  }

  /** A piece other than the missing one adds its span and completes nothing. */
  lemma CollectOne(h: Packet, ps: seq<Piece>, payload: Bytes, cov: set<nat>, m: nat, j: nat)
    requires Tiles(ps, payload, 0, false) && |payload| < IP_MAX && |ps| > 1 && m < |ps| && j < |ps|
    requires m != j && ps[m].off !in cov
    ensures Next(cov, PieceBlock(h, ps[j]), |payload|) == cov + Span(PieceBlock(h, ps[j]))
  {
    MissingOutside(h, ps, payload, m, j);
    assert ps[m].off in Range(0, |payload|);
  }

  lemma MissingOutside(h: Packet, ps: seq<Piece>, payload: Bytes, m: nat, j: nat)
    requires Tiles(ps, payload, 0, false) && |payload| < IP_MAX && |ps| > 1 && m < |ps| && j < |ps|
    ensures ps[m].off < |payload|
    ensures m != j ==> ps[m].off !in Span(PieceBlock(h, ps[j]))
  {
    TileAt(ps, payload, 0, false, m);
    PieceSlice(h, ps, payload, j);
    PieceSlice(h, ps, payload, m);
    if m < j {
      TilesApart(ps, payload, 0, false, m, j);
    } else if j < m {
      TilesApart(ps, payload, 0, false, j, m);
    }
  }

  lemma AllPiecesCover(h: Packet, ps: seq<Piece>, payload: Bytes, cov: set<nat>)
    requires Tiles(ps, payload, 0, false) && |payload| < IP_MAX && |ps| > 1
    requires cov <= Range(0, |payload|) && forall i :: 0 <= i < |ps| ==> Span(PieceBlock(h, ps[i])) <= cov
    ensures cov == Range(0, |payload|)
  {
    forall x | x in Range(0, |payload|)
      ensures x in cov
    {
      var i := TilesCover(ps, payload, 0, false, x);
      PieceSlice(h, ps, payload, i);
      assert x in Span(PieceBlock(h, ps[i]));
    }
  }

  lemma {:induction false} CollectedInRange(st: Frags, es: seq<Event>, key: Key, payload: Bytes, blocks: set<Block>)
    requires Valid(st) && Sound(payload, blocks) && Calm(st, es, key, payload, blocks)
    ensures Collected(es, key, |payload|) <= Range(0, |payload|)
  {
    if es != [] {
      CollectedInRange(st, es[..|es| - 1], key, payload, blocks);
    }
  }

  /** While fragments of a datagram cut into pieces arrive in any order, any number
      of times, among packets of other datagrams, nothing comes out before the
      last missing piece, and with it exactly the payload. */
  lemma RoundTrip(st: Frags, es: seq<Event>, e: Event, h: Packet, ps: seq<Piece>, payload: Bytes)
    requires Valid(st) && Find(st.active, KeyOf(h)).None?
    requires Tiles(ps, payload, 0, false) && |payload| < IP_MAX && |ps| > 1
    requires Calm(st, es, KeyOf(h), payload, BlocksOf(h, ps)) && !AllArrived(es, h, ps)
    requires exists i :: 0 <= i < |ps| && e.p == Carry(h, ps[i])
    ensures var o := Reassemble(After(st, es), e.p, e.now).1;
            && (o.Some? <==> AllArrived(es + [e], h, ps))
            && (o.Some? ==> KeyOf(o.value) == KeyOf(h) && o.value.data == payload)
  {
    var k :| 0 <= k < |ps| && e.p == Carry(h, ps[k]);
    var blocks := BlocksOf(h, ps);
    PiecesSound(h, ps, payload);
    PieceSlice(h, ps, payload, k);
    DeliveredWhenCovered(st, es, e, payload, blocks);
    CoveredIffArrived(st, es, e, h, ps, payload, k);
  }

  /** Everything is covered exactly when every piece has arrived. */
  lemma CoveredIffArrived(st: Frags, es: seq<Event>, e: Event, h: Packet, ps: seq<Piece>, payload: Bytes, k: nat)
    requires Valid(st) && Tiles(ps, payload, 0, false) && |payload| < IP_MAX && |ps| > 1
    requires Calm(st, es, KeyOf(h), payload, BlocksOf(h, ps)) && !AllArrived(es, h, ps)
    requires Sound(payload, BlocksOf(h, ps)) && Find(st.active, KeyOf(h)).None? && k < |ps| && e.p == Carry(h, ps[k])
    ensures AllArrived(es + [e], h, ps) <==>
              Collected(es, KeyOf(h), |payload|) + Span(BlockOf(e.p)) == Range(0, |payload|)
  {
    var m :| 0 <= m < |ps| && !Arrived(es, h, ps, m);
    PieceSlice(h, ps, payload, k);
    var cov := Collected(es, KeyOf(h), |payload|) + Span(BlockOf(e.p));
    CollectedInRange(st, es, KeyOf(h), payload, BlocksOf(h, ps));
    if AllArrived(es + [e], h, ps) {
      forall i | 0 <= i < |ps|
        ensures Span(PieceBlock(h, ps[i])) <= cov
      {
        CollectedPieces(st, es, h, ps, payload, m, i);
        LastEvent(es, e, h, ps, i);
      }
      AllPiecesCover(h, ps, payload, cov);
    } else {
      var i :| 0 <= i < |ps| && !Arrived(es + [e], h, ps, i);
      CollectedPieces(st, es, h, ps, payload, m, i);
      LastEvent(es, e, h, ps, i);
      MissingOutside(h, ps, payload, i, k);
      assert ps[i].off in Range(0, |payload|) && ps[i].off !in cov;
    }
  }

  lemma LastEvent(es: seq<Event>, e: Event, h: Packet, ps: seq<Piece>, i: nat)
    requires i < |ps|
    ensures Arrived(es + [e], h, ps, i) <==> Arrived(es, h, ps, i) || e.p == Carry(h, ps[i])
  {
    if Arrived(es, h, ps, i) {
      var j :| 0 <= j < |es| && es[j].p == Carry(h, ps[i]);
      assert (es + [e])[j] == es[j];
    }
    assert (es + [e])[|es|] == e;
  }

  // ---------------------------------------------------------------- gateways

  /** What a gateway makes of a fragment, from its header, are the pieces of its
      stretch of the datagram. */
  lemma GatewayPieces(h: Packet, pc: Piece, seg: nat)
    requires pc.off % 8 == 0 && pc.off + |pc.data| < IP_MAX && pc.data != [] && seg > 0
    ensures var p := Carry(h, pc);
            && Fits(p) && !DontFragment(p.frag)
            && CarryAll(p, Split(p.data, p.frag % 0x2000 * 8, seg, More(p.frag)))
                 == CarryAll(h, Split(pc.data, pc.off, seg, pc.more))
            && (|pc.data| <= seg ==> [p] == CarryAll(h, Split(pc.data, pc.off, seg, pc.more)))
  {
    FieldMeaning(pc);
    var ps := Split(pc.data, pc.off, seg, pc.more);
    assert forall i :: 0 <= i < |ps| ==> Carry(Carry(h, pc), ps[i]) == Carry(h, ps[i]);
  }

  lemma {:induction false} SplitAllLength(ps: seq<Piece>, segs: seq<nat>)
    requires |segs| == |ps| && forall i :: 0 <= i < |segs| ==> segs[i] > 0
    ensures |SplitAll(ps, segs)| >= |ps|
  {
    if ps != [] {
      SplitAllLength(ps[1..], segs[1..]);
    }
  }

  /** The round trip for a datagram cut at its source to segments of seg bytes and
      cut again at gateways, fragment i to segments of segs[i] bytes. */
  lemma GatewayRoundTrip(st: Frags, es: seq<Event>, e: Event, h: Packet, payload: Bytes, seg: nat, segs: seq<nat>)
    requires Valid(st) && Find(st.active, KeyOf(h)).None?
    requires 0 < seg < |payload| < IP_MAX - IP4HDR && seg % 8 == 0
    requires |segs| == |Split(payload, 0, seg, false)|
    requires forall i :: 0 <= i < |segs| ==> segs[i] > 0 && segs[i] % 8 == 0
    requires var ps := SplitAll(Split(payload, 0, seg, false), segs);
             && Calm(st, es, KeyOf(h), payload, BlocksOf(h, ps)) && !AllArrived(es, h, ps)
             && exists i :: 0 <= i < |ps| && e.p == Carry(h, ps[i])
    ensures var o := Reassemble(After(st, es), e.p, e.now).1;
            && (o.Some? <==> AllArrived(es + [e], h, SplitAll(Split(payload, 0, seg, false), segs)))
            && (o.Some? ==> o.value.data == payload)
  {
    var ps := Split(payload, 0, seg, false);
    SplitTiles(payload, 0, seg, false);
    SplitAllTiles(ps, segs, payload, 0, false);
    SplitAllLength(ps, segs);
    RoundTrip(st, es, e, h, SplitAll(ps, segs), payload);
  }
}
