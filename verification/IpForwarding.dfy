/** What becomes of a datagram that a router has put together. */
module IpForwarding {
  import opened IpFragment
  import opened IpReassembly
  import opened IpArrivals
  import opened IpRoundTrip
  import opened Wrappers

  /** A complete queue hands up a header that says more follows, unless one fragment
      was all of it. */
  lemma AssembledMoreIff(k: Key, bs: seq<Block>, payload: Bytes)
    requires Slices(bs, 0, payload) && Complete(bs, 0)
    ensures More(Assemble(k, bs).frag) <==> |bs| > 1
  {
    if |bs| > 1 {
      assert bs[1..] != [] && Slice(bs[1..][0], payload);
    }
  }

  // ---------------------------------------------------------------- queues that never complete

  ghost predicate AllMore(bs: seq<Block>) {
    forall b :: b in bs ==> More(b.frag)
  }

  lemma {:induction false} TrimFrontMore(bs: seq<Block>, fend: nat)
    requires AllMore(bs)
    ensures AllMore(TrimFront(bs, fend))
  {
    if bs != [] && fend > bs[0].foff {
      assert bs[0] in bs;
      if fend - bs[0].foff >= bs[0].flen {
        TrimFrontMore(bs[1..], fend);
      }
    }
  }

  lemma InsertMore(bs: seq<Block>, b: Block)
    requires AllMore(bs) && More(b.frag)
    ensures Insert(bs, b).Some? ==> AllMore(Insert(bs, b).value) && !Complete(Insert(bs, b).value, 0)
  {
    var i := Place(bs, b.foff);
    var left := bs[..i];
    TrimFrontMore(bs[i..], b.foff + b.flen);
    TrimBackMore(left, b.foff);
    if Insert(bs, b).Some? {
      NeverComplete(Insert(bs, b).value, 0);
    }
  }

  lemma TrimBackMore(left: seq<Block>, foff: nat)
    requires AllMore(left) && (left != [] ==> left[|left| - 1].foff < foff)
    ensures AllMore(TrimBack(left, foff))
  {
    if left != [] {
      assert left[|left| - 1] in left;
    }
  }

  lemma {:induction false} NeverComplete(bs: seq<Block>, posn: nat)
    requires AllMore(bs)
    ensures !Complete(bs, posn)
  {
    if bs != [] {
      assert bs[0] in bs;
      NeverComplete(bs[1..], posn + bs[0].flen);
    }
  }

  /** The queue of the datagram holds only fragments that say more follows. */
  ghost predicate Endless(q: Option<Queue>) {
    q.Some? ==> AllMore(q.value.blist)
  }

  lemma HandleEndless(qs: seq<Queue>, free: nat, i: nat, p: Packet, now: nat)
    requires i <= |qs| && |qs| + free == NFRAG && Distinct(qs) && More(p.frag)
    requires if i < |qs| then qs[i].key == KeyOf(p) && AllMore(qs[i].blist) else Find(qs, KeyOf(p)).None?
    ensures var (st', o) := Handle(qs, free, i, p, now); o.None? && Endless(Find(st'.active, KeyOf(p)))
  {
    var key, b := KeyOf(p), BlockOf(p);
    if i == |qs| {
      AllotOne(qs, free, key, b, now, key);
    } else {
      var r := Insert(qs[i].blist, b);
      InsertMore(qs[i].blist, b);
      if r.Some? {
        ReplaceOne(qs, i, qs[i].(blist := r.value), key);
      } else {
        ReplaceOne(qs, i, qs[i], key);
        assert qs[i := qs[i]] == qs;
      }
    }
  }

  /** A fragment that says more follows, arriving at such a queue, brings nothing
      out. */
  lemma EndlessArrival(st: Frags, p: Packet, now: nat)
    requires Valid(st) && More(p.frag) && Endless(Find(st.active, KeyOf(p)))
    ensures Reassemble(st, p, now).1.None? && Endless(Find(Reassemble(st, p, now).0.active, KeyOf(p)))
  {
    if !MustBeZero(p.frag) {
      var qs, free, i := OwnHandle(st, p, now);
      HandleEndless(qs, free, i, p, now);
    }
  }

  lemma HandleSubset(qs: seq<Queue>, free: nat, i: nat, p: Packet, now: nat, key: Key)
    requires i <= |qs| && |qs| + free == NFRAG && (i < |qs| ==> qs[i].key == KeyOf(p)) && KeyOf(p) != key
    ensures forall q :: q in Handle(qs, free, i, p, now).0.active && q.key == key ==> q in qs
  {}

  /** Other packets can only take our queue away. */
  lemma OthersTakeAway(st: Frags, p: Packet, now: nat, key: Key)
    requires Valid(st) && KeyOf(p) != key
    ensures var q := Find(Reassemble(st, p, now).0.active, key); q.None? || q == Find(st.active, key)
  {
    if !MustBeZero(p.frag) {
      var i := Locate(st.active, KeyOf(p));
      var kept := Purge(st.active[..i], now);
      LocateSplit(st.active, KeyOf(p), now);
      HandleSubset(kept + st.active[i..], st.free + i - |kept|, |kept|, p, now, key);
      var q := Find(Reassemble(st, p, now).0.active, key);
      if q.Some? {
        assert q.value in st.active;
        FindIs(st.active, q.value);
      }
    }
  }

  lemma {:induction false} FindIs(qs: seq<Queue>, q: Queue)
    requires Distinct(qs) && q in qs
    ensures Find(qs, q.key) == Some(q)
  {
    var i :| 0 <= i < |qs| && qs[i] == q;
    var f := Find(qs, q.key);
    assert f.Some?;
    var j :| 0 <= j < |qs| && qs[j] == f.value;
  }

  // ---------------------------------------------------------------- the next receiver

  /** Every packet for the datagram says that more follows. */
  ghost predicate OnlyMore(es: seq<Event>, key: Key) {
    forall k :: 0 <= k < |es| && KeyOf(es[k].p) == key ==> More(es[k].p.frag)
  }

  lemma {:induction false} StaysEndless(st: Frags, es: seq<Event>, key: Key)
    requires Valid(st) && Find(st.active, key).None? && OnlyMore(es, key)
    ensures Endless(Find(After(st, es).active, key))
  {
    if es != [] {
      var n := |es| - 1;
      StaysEndless(st, es[..n], key);
      var s := After(st, es[..n]);
      if KeyOf(es[n].p) == key {
        EndlessArrival(s, es[n].p, es[n].now);
      } else {
        OthersTakeAway(s, es[n].p, es[n].now, key);
      }
    }
  }

  lemma {:induction false} CarriedMore(h: Packet, payload: Bytes, off: nat, seglen: nat, i: nat)
    requires payload != [] && off % 8 == 0 && off + |payload| < IP_MAX && seglen > 0 && seglen % 8 == 0
    requires i < |Split(payload, off, seglen, true)|
    ensures var p := CarryAll(h, Split(payload, off, seglen, true))[i]; More(p.frag) && KeyOf(p) == KeyOf(h)
  {
    SplitTiles(payload, off, seglen, true);
    var ps := Split(payload, off, seglen, true);
    TileAt(ps, payload, off, true, i);
    FieldMeaning(ps[i]);
  }

  /** Whatever a router makes of a packet at offset 0 that says more follows says so
      too. */
  lemma SentOnMore(p: Packet, freshId: nat, medialen: int)
    requires Begins(p)
    ensures var o := Sending(p, true, freshId, medialen);
            o.Sent? ==> forall q :: q in o.pkts ==> More(q.frag) && KeyOf(q) == KeyOf(p)
  {
    var o, seglen := Sending(p, true, freshId, medialen), (medialen - IP4HDR) / 8 * 8;
    if o.Sent? && |p.data| + IP4HDR > medialen {
      forall q | q in o.pkts
        ensures More(q.frag) && KeyOf(q) == KeyOf(p)
      {
        var i :| 0 <= i < |o.pkts| && o.pkts[i] == q;
        CarriedMore(p, p.data, 0, seglen, i);
      }
    }
  }

  /** In no run of such packets does one bring the datagram out. */
  lemma NeverOut(st: Frags, es: seq<Event>, e: Event)
    requires Valid(st) && Find(st.active, KeyOf(e.p)).None? && OnlyMore(es, KeyOf(e.p)) && More(e.p.frag)
    ensures Reassemble(After(st, es), e.p, e.now).1.None?
  {
    StaysEndless(st, es, KeyOf(e.p));
    EndlessArrival(After(st, es), e.p, e.now);
  }

  /** A datagram that a router has put together and sends on, whole or cut again,
      never comes out at the next receiver: however its packets arrive there, each of
      them is taken for a fragment of something longer. */
  lemma ForwardedNeverArrives(st: Frags, es: seq<Event>, e: Event, payload: Bytes, blocks: set<Block>,
                              freshId: nat, medialen: int, st2: Frags, es2: seq<Event>, e2: Event)
    requires Valid(st) && Sound(payload, blocks) && Find(st.active, KeyOf(e.p)).None?
    requires Calm(st, es, KeyOf(e.p), payload, blocks) && Fragment(e.p, payload, blocks)
    requires Reassemble(After(st, es), e.p, e.now).1.Some?
    requires Valid(st2) && Find(st2.active, KeyOf(e.p)).None?
    requires var o := Sending(Reassemble(After(st, es), e.p, e.now).1.value, true, freshId, medialen);
             && o.Sent? && e2.p in o.pkts
             && forall k :: 0 <= k < |es2| && KeyOf(es2[k].p) == KeyOf(e.p) ==> es2[k].p in o.pkts
    ensures Reassemble(After(st2, es2), e2.p, e2.now).1.None?
  {
    DeliveredWhenCovered(st, es, e, payload, blocks);
    var p := Reassemble(After(st, es), e.p, e.now).1.value;
    SentOnMore(p, freshId, medialen);
    NeverOut(st2, es2, e2);
  }
}
