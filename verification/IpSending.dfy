/** From one host's output, through the outputs of routers, to another host's
    reassembly. */
module IpSending {
  import opened IpFragment
  import opened IpReassembly
  import opened IpArrivals
  import opened IpRoundTrip
  import opened Wrappers

  /** The pieces make up the payload; an empty one is a piece of its own. */
  ghost predicate MakesUp(ps: seq<Piece>, payload: Bytes) {
    if payload == [] then ps == [Piece(0, [], false)] else Tiles(ps, payload, 0, false)
  }

  // ---------------------------------------------------------------- the way

  /** A host sends p. */
  method Send(p: Packet, freshId: nat, medialen: int) returns (o: Outcome, ghost ps: seq<Piece>)
    requires p.frag < 0x1_0000 && freshId < 0x1_0000
    ensures o.TooBig? <==> |p.data| + 20 >= 65536
    ensures o.CantFragment? <==> 65536 > |p.data| + 20 > medialen && DontFragment(p.frag)
    ensures o.SegmentTooSmall? <==> 65536 > |p.data| + 20 > medialen && !DontFragment(p.frag) && medialen < 28
    ensures o.Sent? ==> MakesUp(ps, p.data) && o.pkts == CarryAll(p.(id := freshId), ps)
    ensures o.Sent? ==> |p.data| + 20 < 65536 && forall q :: q in o.pkts ==> |q.data| + 20 <= medialen
  {
    ps := [];
    o := Output(p, false, freshId, medialen);
    if o.Sent? {
      if |p.data| + IP4HDR <= medialen {
        ps := [Piece(0, p.data, false)];
      } else {
        ps := Split(p.data, 0, (medialen - IP4HDR) / 8 * 8, false);
        SplitTiles(p.data, 0, (medialen - IP4HDR) / 8 * 8, false);
      }
      SentPieces(p, freshId, medialen, ps);
    }
  }

  lemma {:induction false} SentPieces(p: Packet, freshId: nat, medialen: int, ps: seq<Piece>)
    requires Sending(p, false, freshId, medialen).Sent?
    requires if |p.data| + IP4HDR <= medialen then ps == [Piece(0, p.data, false)]
             else (medialen - IP4HDR) / 8 * 8 > 0 && ps == Split(p.data, 0, (medialen - IP4HDR) / 8 * 8, false)
    ensures Sending(p, false, freshId, medialen).pkts == CarryAll(p.(id := freshId), ps)
  {
    if |p.data| + IP4HDR <= medialen {
      var h, w := p.(id := freshId), Piece(0, p.data, false);
      assert ps == [w] + [] && ps[1..] == [];
      assert Carry(h, w) == h.(frag := 0);
    }
  }

  /** A size of segment that leaves piece p as the medium does. */
  ghost function SegFor(n: nat, medialen: int): nat {
    if n + IP4HDR <= medialen then 0x1_0000 else if medialen < IP4HDR then 0 else (medialen - IP4HDR) / 8 * 8
  }

  lemma {:induction false} SegForSent(q: Packet, medialen: int)
    requires Sending(q, true, 0, medialen).Sent?
    ensures SegFor(|q.data|, medialen) > 0 && SegFor(|q.data|, medialen) % 8 == 0
  {}

  /** A packet that fits is one piece, however large the segments. */
  lemma {:induction false} PassedWhole(h: Packet, pc: Piece, seg: nat)
    requires |pc.data| <= seg && 0 < seg
    ensures [Carry(h, pc)] == CarryAll(h, Split(pc.data, pc.off, seg, pc.more))
  {
    assert [pc][1..] == [] && CarryAll(h, [pc]) == [Carry(h, pc)];
  }

  lemma {:induction false} RouterPieces(h: Packet, pc: Piece, medialen: int)
    requires pc.off % 8 == 0 && pc.off + |pc.data| + IP4HDR < IP_MAX
    requires Sending(Carry(h, pc), true, 0, medialen).Sent?
    ensures var seg := SegFor(|pc.data|, medialen);
            && seg > 0 && seg % 8 == 0
            && Sending(Carry(h, pc), true, 0, medialen).pkts == CarryAll(h, Split(pc.data, pc.off, seg, pc.more))
  {
    SegForSent(Carry(h, pc), medialen);
    if |pc.data| + IP4HDR <= medialen {
      PassedWhole(h, pc, 0x1_0000);
    } else {
      GatewayPieces(h, pc, SegFor(|pc.data|, medialen));
    }
  }

  lemma {:induction false} CarryAllConcat(h: Packet, a: seq<Piece>, b: seq<Piece>)
    ensures CarryAll(h, a + b) == CarryAll(h, a) + CarryAll(h, b)
  {
    var x, y := CarryAll(h, a + b), CarryAll(h, a) + CarryAll(h, b);
    forall i | 0 <= i < |x|
      ensures x[i] == y[i]
    {
      assert i < |a| ==> (a + b)[i] == a[i];
      assert i >= |a| ==> (a + b)[i] == b[i - |a|];
    }
  }

  lemma {:induction false} SplitAllNext(ps: seq<Piece>, segs: seq<nat>, p: Piece, seg: nat)
    requires |segs| == |ps| && (forall i :: 0 <= i < |segs| ==> segs[i] > 0) && seg > 0
    ensures SplitAll(ps + [p], segs + [seg]) == SplitAll(ps, segs) + Split(p.data, p.off, seg, p.more)
  {
    if ps == [] {
      assert ps + [p] == [p] && segs + [seg] == [seg];
      SplitLast([p], [seg]);
    } else {
      assert (ps + [p])[1..] == ps[1..] + [p] && (segs + [seg])[1..] == segs[1..] + [seg];
      SplitAllNext(ps[1..], segs[1..], p, seg);
    }
  }

  /** The pieces qs are what routers have made of the pieces ps so far. */
  ghost predicate Recut(ps: seq<Piece>, segs: seq<nat>, qs: seq<Piece>) {
    && |segs| == |ps| && (forall i :: 0 <= i < |segs| ==> segs[i] > 0 && segs[i] % 8 == 0)
    && qs == SplitAll(ps, segs)
  }

  lemma {:induction false} RecutMakesUp(ps: seq<Piece>, segs: seq<nat>, qs: seq<Piece>, payload: Bytes)
    requires Recut(ps, segs, qs) && MakesUp(ps, payload)
    ensures MakesUp(qs, payload)
  {
    if payload == [] {
      SplitLast(ps, segs);
    } else {
      SplitAllTiles(ps, segs, payload, 0, false);
    }
  }

  lemma {:induction false} PieceFits(ps: seq<Piece>, payload: Bytes, i: nat)
    requires MakesUp(ps, payload) && i < |ps|
    ensures ps[i].off % 8 == 0 && ps[i].off + |ps[i].data| <= |payload|
  {
    if payload != [] {
      TileAt(ps, payload, 0, false, i);
    }
  }

  /** What the routers have sent on of the first i pieces. */
  ghost predicate Passed(h: Packet, ps: seq<Piece>, i: nat, segs: seq<nat>, qs: seq<Piece>, all: seq<Packet>) {
    i <= |ps| && Recut(ps[..i], segs, qs) && all == CarryAll(h, qs)
  }

  lemma {:induction false} PassTurn(h: Packet, ps: seq<Piece>, i: nat, segs: seq<nat>, qs: seq<Piece>, all: seq<Packet>,
                 medialen: int, payload: Bytes)
      returns (segs': seq<nat>, qs': seq<Piece>)
    requires Passed(h, ps, i, segs, qs, all) && i < |ps| && MakesUp(ps, payload) && |payload| + IP4HDR < IP_MAX
    requires Sending(Carry(h, ps[i]), true, 0, medialen).Sent?
    ensures Passed(h, ps, i + 1, segs', qs', all + Sending(Carry(h, ps[i]), true, 0, medialen).pkts)
  {
    var pc := ps[i];
    PieceFits(ps, payload, i);
    RouterPieces(h, pc, medialen);
    var seg := SegFor(|pc.data|, medialen);
    var more := Split(pc.data, pc.off, seg, pc.more);
    SplitAllNext(ps[..i], segs, pc, seg);
    CarryAllConcat(h, qs, more);
    assert ps[..i + 1] == ps[..i] + [pc];
    segs', qs' := segs + [seg], qs + more;
  }

  /** Routers pass the packets of a datagram on, packet i to a medium that carries
      mediums[i]; if none of them is refused, the outcome is the datagram again. */
  method PassOn(h: Packet, pkts: seq<Packet>, mediums: seq<int>, ghost ps: seq<Piece>, ghost payload: Bytes)
      returns (ok: bool, all: seq<Packet>, ghost qs: seq<Piece>)
    requires MakesUp(ps, payload) && pkts == CarryAll(h, ps) && |mediums| == |pkts| && |payload| + IP4HDR < IP_MAX
    ensures ok ==> MakesUp(qs, payload) && all == CarryAll(h, qs)
  {
    var i := 0;
    ok, all, qs := true, [], [];
    ghost var segs: seq<nat> := [];
    while i < |pkts|
      invariant i <= |pkts| && Passed(h, ps, i, segs, qs, all)
    {
      PassOneOn(h, ps, i, payload);
      var o := Output(pkts[i], true, 0, mediums[i]);
      if !o.Sent? {
        return false, [], [];
      }
      segs, qs := PassTurn(h, ps, i, segs, qs, all, mediums[i], payload);
      all := all + o.pkts;
      i := i + 1;
    }
    assert ps[..i] == ps;
    RecutMakesUp(ps, segs, qs, payload);
  }

  lemma {:induction false} PassOneOn(h: Packet, ps: seq<Piece>, i: nat, payload: Bytes)
    requires MakesUp(ps, payload) && i < |ps| && |payload| + IP4HDR < IP_MAX
    ensures Carry(h, ps[i]).frag < 0x1_0000 && Fits(Carry(h, ps[i]))
  {
    PieceFits(ps, payload, i);
    FieldMeaning(ps[i]);
  }

  // ---------------------------------------------------------------- the arrival

  /** q belongs to the datagram of h. */
  predicate Ours(q: Packet, h: Packet) {
    q.src == h.src && q.dst == h.dst && q.id == h.id
  }

  /** No queue holds anything of the datagram of h. */
  ghost predicate Unknown(st: Frags, h: Packet) {
    forall q :: q in st.active ==> q.key != Key(h.src, h.dst, h.id)
  }

  /** A packet that comes now neither times the queue of h out nor evicts it. */
  ghost predicate Spares(st: Frags, now: nat, h: Packet) {
    forall k :: 0 <= k < |st.active| && st.active[k].key == Key(h.src, h.dst, h.id) ==>
      st.active[k].age >= now && (st.free == 0 ==> k < |st.active| - 1)
  }

  /** What arrives are packets of ours, and others that spare our queue. */
  ghost predicate Undisturbed(st: Frags, es: seq<Event>, h: Packet, pkts: seq<Packet>)
    requires Valid(st)
  {
    forall n :: 0 <= n < |es| ==>
      if Ours(es[n].p, h) then es[n].p in pkts else Spares(After(st, es[..n]), es[n].now, h)
  }

  lemma {:induction false} SparesQuiet(st: Frags, p: Packet, now: nat, h: Packet)
    requires Valid(st) && Spares(st, now, h) && !Ours(p, h)
    ensures Quiet(st, p, now, KeyOf(h))
  {
    assert KeyOf(h) == Key(h.src, h.dst, h.id) && KeyOf(p) != KeyOf(h);
    if Find(st.active, KeyOf(h)).Some? {
      var k := FindAt(st.active, KeyOf(h));
    }
  }

  lemma {:induction false} FindAt(qs: seq<Queue>, key: Key) returns (k: nat)
    requires Find(qs, key).Some?
    ensures k < |qs| && qs[k].key == key && Find(qs, key).value == qs[k]
  {
    k := 0;
    if qs[0].key != key {
      k := FindAt(qs[1..], key);
      k := k + 1;
    }
  }

  /** Every packet of the datagram has arrived. */
  ghost predicate AllIn(es: seq<Event>, pkts: seq<Packet>) {
    forall q :: q in pkts ==> exists n :: 0 <= n < |es| && es[n].p == q
  }

  /** Whatever the receiver was doing, and in whatever order, how often and between
      whatever else the packets arrive: nothing comes out before the last of them,
      and with it the payload. */
  ghost predicate ComesOut(pkts: seq<Packet>, h: Packet, payload: Bytes) {
    forall st: Frags, es: seq<Event>, e: Event ::
      Valid(st) && Unknown(st, h) && Undisturbed(st, es, h, pkts) && !AllIn(es, pkts) && e.p in pkts ==>
        var o := Reassemble(After(st, es), e.p, e.now).1;
        && (o.Some? <==> AllIn(es + [e], pkts))
        && (o.Some? ==> Ours(o.value, h) && o.value.data == payload)
  }

  lemma {:induction false} UndisturbedCalm(st: Frags, es: seq<Event>, h: Packet, ps: seq<Piece>, payload: Bytes)
    requires Valid(st) && Undisturbed(st, es, h, CarryAll(h, ps))
    requires Tiles(ps, payload, 0, false) && |payload| < IP_MAX && |ps| > 1
    ensures Calm(st, es, KeyOf(h), payload, BlocksOf(h, ps))
    decreases |es|
  {
    if es != [] {
      var n := |es| - 1;
      var front := es[..n];
      forall k | 0 <= k < |front|
        ensures if Ours(front[k].p, h) then front[k].p in CarryAll(h, ps)
                else Spares(After(st, front[..k]), front[k].now, h)
      {
        assert front[..k] == es[..k] && front[k] == es[k];
      }
      UndisturbedCalm(st, front, h, ps, payload);
      if Ours(es[n].p, h) {
        var i :| 0 <= i < |ps| && es[n].p == CarryAll(h, ps)[i];
        PieceSlice(h, ps, payload, i);
      } else {
        SparesQuiet(After(st, front), es[n].p, es[n].now, h);
      }
    }
  }

  lemma {:induction false} AllInArrived(es: seq<Event>, h: Packet, ps: seq<Piece>)
    ensures AllIn(es, CarryAll(h, ps)) <==> AllArrived(es, h, ps)
  {
    var pkts := CarryAll(h, ps);
    if AllIn(es, pkts) {
      forall i | 0 <= i < |ps|
        ensures Arrived(es, h, ps, i)
      {
        assert pkts[i] in pkts;
      }
    }
    if AllArrived(es, h, ps) {
      forall q | q in pkts
        ensures exists n :: 0 <= n < |es| && es[n].p == q
      {
        var i :| 0 <= i < |ps| && q == pkts[i];
        assert Arrived(es, h, ps, i);
      }
    }
  }

  lemma {:induction false} SeveralComeOut(st: Frags, es: seq<Event>, e: Event, h: Packet, ps: seq<Piece>,
                                          payload: Bytes)
    requires Valid(st) && Unknown(st, h) && Undisturbed(st, es, h, CarryAll(h, ps))
    requires Tiles(ps, payload, 0, false) && |payload| < IP_MAX && |ps| > 1
    requires !AllIn(es, CarryAll(h, ps)) && e.p in CarryAll(h, ps)
    ensures var o := Reassemble(After(st, es), e.p, e.now).1;
            && (o.Some? <==> AllIn(es + [e], CarryAll(h, ps)))
            && (o.Some? ==> Ours(o.value, h) && o.value.data == payload)
  {
    assert Find(st.active, KeyOf(h)).None?;
    UndisturbedCalm(st, es, h, ps, payload);
    AllInArrived(es, h, ps);
    AllInArrived(es + [e], h, ps);
    var i :| 0 <= i < |ps| && e.p == CarryAll(h, ps)[i];
    RoundTrip(st, es, e, h, ps, payload);
  }

  /** A packet that is the whole datagram comes out at once. */
  lemma {:induction false} WholeComesOut(st: Frags, es: seq<Event>, e: Event, h: Packet, payload: Bytes)
    requires Valid(st) && e.p == Carry(h, Piece(0, payload, false))
    ensures Reassemble(After(st, es), e.p, e.now).1 == Some(e.p) && AllIn(es + [e], [e.p])
  {
    assert Field(Piece(0, payload, false)) == 0;
    assert (es + [e])[|es|].p == e.p;
  }

  lemma {:induction false} OnePiece(ps: seq<Piece>, payload: Bytes)
    requires MakesUp(ps, payload) && |ps| == 1
    ensures ps == [Piece(0, payload, false)]
  {}

  lemma {:induction false} PiecesComeOut(h: Packet, ps: seq<Piece>, payload: Bytes)
    requires MakesUp(ps, payload) && |payload| < IP_MAX
    ensures ComesOut(CarryAll(h, ps), h, payload)
  {
    var pkts := CarryAll(h, ps);
    forall st: Frags, es: seq<Event>, e: Event |
        Valid(st) && Unknown(st, h) && Undisturbed(st, es, h, pkts) && !AllIn(es, pkts) && e.p in pkts
      ensures var o := Reassemble(After(st, es), e.p, e.now).1;
              && (o.Some? <==> AllIn(es + [e], pkts))
              && (o.Some? ==> Ours(o.value, h) && o.value.data == payload)
    {
      if |ps| == 1 {
        OnePiece(ps, payload);
        assert pkts == [Carry(h, ps[0])];
        WholeComesOut(st, es, e, h, payload);
      } else {
        SeveralComeOut(st, es, e, h, ps, payload);
      }
    }
  }

  /** What one host sends comes out at the next, straight away and through routers
      that cut its packets again, each for its own medium. */
  method SendThrough(p: Packet, freshId: nat, medialen: int, mediums: seq<int>)
      returns (o: Outcome, ok: bool, all: seq<Packet>)
    requires p.frag < 0x1_0000 && freshId < 0x1_0000
    ensures o.Sent? ==> ComesOut(o.pkts, p.(id := freshId), p.data)
    ensures ok ==> o.Sent? && ComesOut(all, p.(id := freshId), p.data)
  {
    var h := p.(id := freshId);
    ghost var ps;
    o, ps := Send(p, freshId, medialen);
    ok, all := false, [];
    if o.Sent? {
      PiecesComeOut(h, ps, p.data);
      if |mediums| == |o.pkts| {
        ghost var qs;
        ok, all, qs := PassOn(h, o.pkts, mediums, ps, p.data);
        if ok {
          PiecesComeOut(h, qs, p.data);
        }
      }
    }
  }
}
