/** Runs of packets arriving at the reassembly queues. */
module IpArrivals {
  import opened IpFragment
  import opened IpReassembly
  import opened Wrappers

  // ---------------------------------------------------------------- the list of queues

  function Find(qs: seq<Queue>, key: Key): (r: Option<Queue>)
    ensures r.None? ==> forall q :: q in qs ==> q.key != key
    ensures r.Some? ==> r.value in qs && r.value.key == key
  {
    if qs == [] then None else if qs[0].key == key then Some(qs[0]) else Find(qs[1..], key)
  }

  ghost predicate Distinct(qs: seq<Queue>) {
    forall i, j :: 0 <= i < j < |qs| ==> qs[i].key != qs[j].key
  }

  ghost predicate Valid(st: Frags) {
    |st.active| + st.free == NFRAG && Distinct(st.active)
  }

  lemma {:induction false} FindConcat(a: seq<Queue>, b: seq<Queue>, key: Key)
    ensures Find(a + b, key) == if Find(a, key).Some? then Find(a, key) else Find(b, key)
  {
    if a == [] {
      assert a + b == b;
    } else {
      assert (a + b)[1..] == a[1..] + b;
      FindConcat(a[1..], b, key);
    }
  }

  lemma {:induction false} FindPurge(qs: seq<Queue>, key: Key, now: nat)
    requires Find(qs, key).Some? ==> Find(qs, key).value.age >= now
    ensures Find(Purge(qs, now), key) == Find(qs, key)
  {
    if qs == [] {
    } else if qs[0].age >= now {
      var t := Purge(qs[1..], now);
      assert Purge(qs, now) == [qs[0]] + t && ([qs[0]] + t)[1..] == t;
      if qs[0].key != key {
        FindPurge(qs[1..], key, now);
      }
    } else {
      FindPurge(qs[1..], key, now);
      assert Purge(qs, now) == Purge(qs[1..], now);
    }
  }

  lemma {:induction false} PurgeDistinct(a: seq<Queue>, b: seq<Queue>, now: nat)
    requires Distinct(a + b)
    ensures Distinct(Purge(a, now) + b)
    ensures forall q :: q in Purge(a, now) + b ==> q in a + b
  {
    if a != [] {
      assert forall i :: 0 <= i < |a[1..] + b| ==> (a[1..] + b)[i] == (a + b)[i + 1];
      PurgeDistinct(a[1..], b, now);
      var t := Purge(a[1..], now) + b;
      if a[0].age < now {
        assert Purge(a, now) + b == t;
      } else {
        assert Purge(a, now) + b == [a[0]] + t;
        forall j | 0 <= j < |t|
          ensures t[j].key != a[0].key
        {
          assert t[j] in a[1..] + b;
          var k :| 0 <= k < |a[1..] + b| && (a[1..] + b)[k] == t[j];
          assert (a + b)[0].key != (a + b)[k + 1].key;
        }
      }
    }
  }

  // ---------------------------------------------------------------- one arrival

  /** What the queues know of one datagram: nothing while cov is empty, else a
      queue of slices that covers cov. When the fragments that arrive are all
      taken from `blocks`, no two of which overlap, so is what the queue holds. */
  ghost predicate Tracks(st: Frags, key: Key, payload: Bytes, cov: set<nat>, blocks: set<Block>) {
    Held(Find(st.active, key), payload, cov, blocks)
  }

  ghost predicate Held(q: Option<Queue>, payload: Bytes, cov: set<nat>, blocks: set<Block>) {
    if cov == {} then q.None?
    else && q.Some? && Slices(q.value.blist, 0, payload) && Cover(q.value.blist) == cov != Range(0, |payload|)
         && (Apart(blocks) ==> Within(q.value.blist, blocks))
  }

  /** No two of the fragments overlap, and none is shortened. */
  ghost predicate Apart(blocks: set<Block>) {
    && (forall b :: b in blocks ==> b.flen == b.hlen)
    && (forall b, c :: b in blocks && c in blocks ==> b == c || b.foff + b.flen <= c.foff || c.foff + c.flen <= b.foff)
  }

  ghost predicate Fragment(p: Packet, payload: Bytes, blocks: set<Block>) {
    !MustBeZero(p.frag) && !Whole(p.frag) && BlockOf(p) in blocks && Slice(BlockOf(p), payload)
  }

  lemma {:induction false} TrimFrontWithin(bs: seq<Block>, b: Block, blocks: set<Block>)
    requires Apart(blocks) && b in blocks && (forall x :: x in bs ==> x in blocks && x.foff >= b.foff && x.flen > 0)
    requires b.flen > 0
    ensures forall x :: x in TrimFront(bs, b.foff + b.flen) ==> x in bs
  {
    if bs != [] && b.foff + b.flen > bs[0].foff {
      assert bs[0] in bs && bs[0] == b;
      TrimFrontWithin(bs[1..], b, blocks);
      assert TrimFront(bs, b.foff + b.flen) == TrimFront(bs[1..], b.foff + b.flen);
      assert forall x :: x in bs[1..] ==> x in bs;
    }
  }

  lemma {:induction false} SlicesAbove(bs: seq<Block>, lo: nat, payload: Bytes)
    requires Slices(bs, lo, payload)
    ensures forall x :: x in bs ==> x.foff >= lo && x.flen > 0
  {
    if bs != [] {
      SlicesAbove(bs[1..], bs[0].foff + bs[0].flen, payload);
    }
  }

  lemma {:induction false} RightOfPlace(bs: seq<Block>, lo: nat, payload: Bytes, foff: nat)
    requires Slices(bs, lo, payload)
    ensures forall x :: x in bs[Place(bs, foff)..] ==> x.foff >= foff && x.flen > 0
  {
    if bs == [] {
    } else if bs[0].foff >= foff {
      SlicesAbove(bs, bs[0].foff, payload);
    } else {
      RightOfPlace(bs[1..], bs[0].foff + bs[0].flen, payload, foff);
      assert bs[Place(bs, foff)..] == bs[1..][Place(bs[1..], foff)..];
    }
  }

  lemma LeftClear(left: seq<Block>, b: Block, blocks: set<Block>)
    requires Apart(blocks) && b in blocks && b.flen > 0 && forall x :: x in left ==> x in blocks && x.foff < b.foff
    ensures Overlap(left, b.foff) <= 0
  {
    if left != [] {
      assert left[|left| - 1] in left;
    }
  }

  lemma InsertUncut(bs: seq<Block>, b: Block)
    requires Overlap(bs[..Place(bs, b.foff)], b.foff) <= 0
    ensures Insert(bs, b) == Some(bs[..Place(bs, b.foff)] + ([b] + TrimFront(bs[Place(bs, b.foff)..], b.foff + b.flen)))
  {}

  lemma WithinConcat(left: seq<Block>, b: Block, right: seq<Block>, blocks: set<Block>)
    requires Within(left, blocks) && b in blocks && Within(right, blocks)
    ensures Within(left + ([b] + right), blocks)
  {}

  ghost predicate Within(bs: seq<Block>, blocks: set<Block>) {
    forall x :: x in bs ==> x in blocks
  }

  /** Fragments that do not overlap are never trimmed. */
  lemma InsertWithin(bs: seq<Block>, b: Block, payload: Bytes, blocks: set<Block>)
    requires Slices(bs, 0, payload) && Apart(blocks) && b in blocks && b.flen > 0 && Within(bs, blocks)
    ensures Insert(bs, b).Some? && Within(Insert(bs, b).value, blocks)
  {
    var i := Place(bs, b.foff);
    RightOfPlace(bs, 0, payload, b.foff);
    LeftClear(bs[..i], b, blocks);
    TrimFrontWithin(bs[i..], b, blocks);
    InsertUncut(bs, b);
    WithinConcat(bs[..i], b, TrimFront(bs[i..], b.foff + b.flen), blocks);
  }

  // ---------------------------------------------------------------- one arrival

  ghost function Next(cov: set<nat>, b: Block, n: nat): set<nat> {
    if cov + Span(b) == Range(0, n) then {} else cov + Span(b)
  }

  /** What arrives of the datagram: true slices of it. */
  ghost predicate Sound(payload: Bytes, blocks: set<Block>) {
    0 < |payload| < 0x1_0000 && forall b :: b in blocks ==> Slice(b, payload)
  }

  /** A packet of another datagram that neither times our queue out nor evicts it. */
  ghost predicate Quiet(st: Frags, p: Packet, now: nat, key: Key)
    requires |st.active| + st.free == NFRAG
  {
    && KeyOf(p) != key
    && (Find(st.active, key).Some? ==>
          Find(st.active, key).value.age >= now && (st.free == 0 ==> st.active[NFRAG - 1].key != key))
  }

  lemma LocateSplit(qs: seq<Queue>, key: Key, now: nat)
    requires Distinct(qs)
    ensures var i := Locate(qs, key);
            && Find(qs[..i], key).None? && qs == qs[..i] + qs[i..]
            && Distinct(Purge(qs[..i], now) + qs[i..])
            && (forall q :: q in Purge(qs[..i], now) + qs[i..] ==> q in qs)
            && Find(Purge(qs[..i], now), key).None?
            && (i < |qs| ==> Find(qs, key) == Some(qs[i]) && Find(qs[i + 1..], key).None?)
            && (i == |qs| ==> Find(qs, key).None?)
  {
    var i := Locate(qs, key);
    assert qs == qs[..i] + qs[i..];
    PurgeDistinct(qs[..i], qs[i..], now);
    FindPurge(qs[..i], key, now);
    FindConcat(qs[..i], qs[i..], key);
  }

  lemma RemoveDistinct(qs: seq<Queue>, i: nat)
    requires i < |qs| && Distinct(qs)
    ensures Distinct(qs[..i] + qs[i + 1..])
  {
    var r := qs[..i] + qs[i + 1..];
    assert forall j :: 0 <= j < |r| ==> r[j] == qs[if j < i then j else j + 1];
  }

  lemma RemoveOne(qs: seq<Queue>, i: nat, key: Key)
    requires i < |qs| && Distinct(qs)
    ensures var r := qs[..i] + qs[i + 1..];
            Distinct(r) && Find(r, key) == if qs[i].key == key then None else Find(qs, key)
  {
    RemoveDistinct(qs, i);
    var q := qs[i];
    assert qs == qs[..i] + ([q] + qs[i + 1..]) && ([q] + qs[i + 1..])[1..] == qs[i + 1..];
    FindConcat(qs[..i], [q] + qs[i + 1..], key);
    FindConcat(qs[..i], qs[i + 1..], key);
    if q.key == key {
      assert forall x :: x in qs[..i] ==> x.key != key;
      assert forall x :: x in qs[i + 1..] ==> x.key != key;
    }
  }

  lemma ReplaceOne(qs: seq<Queue>, i: nat, q: Queue, key: Key)
    requires i < |qs| && Distinct(qs) && q.key == qs[i].key
    ensures Distinct(qs[i := q])
    ensures Find(qs[i := q], key) == if q.key == key then Some(q) else Find(qs, key)
  {
    var r := qs[i := q];
    var t := qs[i + 1..];
    assert qs == qs[..i] + ([qs[i]] + t) && r == qs[..i] + ([q] + t);
    assert ([qs[i]] + t)[1..] == t && ([q] + t)[1..] == t;
    FindConcat(qs[..i], [qs[i]] + t, key);
    FindConcat(qs[..i], [q] + t, key);
    if q.key == key {
      assert forall x :: x in qs[..i] ==> x.key != key;
    }
  }

  lemma AllotOne(active: seq<Queue>, free: nat, k: Key, b: Block, now: nat, key: Key)
    requires Distinct(active) && |active| + free == NFRAG && Find(active, k).None?
    ensures var r := Allot(active, free, k, b, now);
            && Valid(r)
            && (k == key ==> Find(r.active, key) == Some(Queue(k, [b], now + LIFETIME)))
            && (k != key && (free > 0 || active[NFRAG - 1].key != key) ==> Find(r.active, key) == Find(active, key))
  {
    var n := |active| - 1;
    if free == 0 {
      RemoveOne(active, n, key);
      assert active[..n] + active[n + 1..] == active[..n];
    }
    var r := Allot(active, free, k, b, now);
    assert r.active[1..] == if free > 0 then active else active[..n];
  }

  /** The other queues, when one is removed, extended or created. */
  lemma HandleOther(qs: seq<Queue>, free: nat, i: nat, p: Packet, now: nat, key: Key)
    requires i <= |qs| && |qs| + free == NFRAG && Distinct(qs)
    requires if i < |qs| then qs[i].key == KeyOf(p) else Find(qs, KeyOf(p)).None?
    ensures Valid(Handle(qs, free, i, p, now).0)
    ensures KeyOf(p) != key && (free > 0 || Find(qs, key).None? || qs[NFRAG - 1].key != key) ==>
              Find(Handle(qs, free, i, p, now).0.active, key) == Find(qs, key)
  {
    if i == |qs| {
      AllotOne(qs, free, KeyOf(p), BlockOf(p), now, key);
      if Find(qs, key).None? && free == 0 {
        assert qs[NFRAG - 1] in qs;
      }
    } else {
      RemoveOne(qs, i, key);
      var r := Insert(qs[i].blist, BlockOf(p));
      if r.Some? {
        ReplaceOne(qs, i, qs[i].(blist := r.value), key);
      }
    }
  }

  lemma {:induction false} PurgeAll(qs: seq<Queue>, now: nat)
    ensures |Purge(qs, now)| == |qs| ==> Purge(qs, now) == qs
  {
    if qs != [] {
      PurgeAll(qs[1..], now);
    }
  }

  /** Walking up to the queue of k times out no queue that is young enough. */
  lemma WalkKeeps(active: seq<Queue>, k: Key, now: nat, key: Key)
    requires Distinct(active)
    ensures var i := Locate(active, k);
            var kept := Purge(active[..i], now);
            var qs := kept + active[i..];
            && Distinct(qs) && (|qs| == |active| ==> qs == active)
            && (if |kept| < |qs| then i < |active| && qs[|kept|] == active[i] && Find(active, k) == Some(qs[|kept|])
                else Find(qs, k).None? && Find(active, k).None?)
            && ((Find(active, key).Some? ==> Find(active, key).value.age >= now) ==> Find(qs, key) == Find(active, key))
  {
    var i := Locate(active, k);
    LocateSplit(active, k, now);
    PurgeAll(active[..i], now);
    FindConcat(active[..i], active[i..], key);
    FindConcat(Purge(active[..i], now), active[i..], key);
    if Find(active, key).Some? ==> Find(active, key).value.age >= now {
      FindPurge(active[..i], key, now);
    }
    if i == |active| {
      assert Purge(active[..i], now) + active[i..] == Purge(active[..i], now);
    }
  }

  /** Every packet leaves the hundred queues accounted for, one to a datagram;
      a quiet one leaves our queue as it was. */
  lemma OtherArrival(st: Frags, p: Packet, now: nat, key: Key)
    requires Valid(st)
    ensures Valid(Reassemble(st, p, now).0)
    ensures Quiet(st, p, now, key) ==> Find(Reassemble(st, p, now).0.active, key) == Find(st.active, key)
  {
    if !MustBeZero(p.frag) {
      var i := Locate(st.active, KeyOf(p));
      var kept := Purge(st.active[..i], now);
      WalkKeeps(st.active, KeyOf(p), now, key);
      HandleOther(kept + st.active[i..], st.free + i - |kept|, |kept|, p, now, key);
    }
  }

  /** The first fragment of a datagram: it opens a queue and is not all of it. */
  lemma FirstFragment(b: Block, p: Packet, payload: Bytes, blocks: set<Block>)
    requires Fragment(p, payload, blocks) && b == BlockOf(p)
    ensures Slices([b], 0, payload) && Cover([b]) == Span(b) && Span(b) != Range(0, |payload|) && Span(b) != {}
  {
    assert [b][1..] == [];
    assert b.foff in Span(b);
    if b.foff > 0 {
      assert 0 in Range(0, |payload|) && 0 !in Span(b);
    } else {
      assert p.frag % 0x2000 == 0;
      assert |payload| - 1 in Range(0, |payload|) && |payload| - 1 !in Span(b);
    }
  }

  /** A later fragment. */
  lemma LaterFragment(q: Queue, b: Block, payload: Bytes, cov: set<nat>, blocks: set<Block>)
    requires Sound(payload, blocks) && b in blocks
    requires Slices(q.blist, 0, payload) && Cover(q.blist) == cov != Range(0, |payload|)
    requires Apart(blocks) ==> Within(q.blist, blocks)
    ensures var r := Insert(q.blist, b);
            && (r.None? ==> cov + Span(b) == cov)
            && (r.Some? ==>
                  && r.value != [] && Slices(r.value, 0, payload) && Cover(r.value) == cov + Span(b)
                  && (Complete(r.value, 0) <==> cov + Span(b) == Range(0, |payload|))
                  && (Apart(blocks) ==> Within(r.value, blocks))
                  && (Complete(r.value, 0) ==>
                      (Assemble(q.key, r.value).data == payload <==> r.value[0].flen == r.value[0].hlen)))
  {
    InsertSlices(q.blist, 0, b, payload);
    var r := Insert(q.blist, b);
    if r.Some? {
      CompleteIffCovered(r.value, 0, payload);
      if Complete(r.value, 0) {
        AssembleExact(q.key, r.value, payload);
      }
      if Apart(blocks) {
        InsertWithin(q.blist, b, payload, blocks);
      }
    }
  }

  lemma AloneIsWhole(p: Packet)
    ensures Complete([BlockOf(p)], 0) ==> Whole(p.frag)
  {
    var b := BlockOf(p);
    assert [b][1..] == [] && !Complete([b][1..], 0 + b.flen);
    assert Complete([b], 0) ==> b.foff == 0 && !More(b.frag);
    assert p.frag * 8 % 0x1_0000 == 0 ==> p.frag % 0x2000 == 0;
  }

  /** A nonempty packet at offset 0 that says more follows. */
  predicate Begins(p: Packet) {
    More(p.frag) && p.frag % 0x2000 == 0 && p.data != []
  }

  /** A fragment that completes the queue is not alone on it, and the first one
      says that more follows. */
  lemma CompletedByTwo(k: Key, bs: seq<Block>, p: Packet, r: seq<Block>, payload: Bytes)
    requires Insert(bs, BlockOf(p)) == Some(r) && !Whole(p.frag)
    requires Slices(r, 0, payload) && Complete(r, 0)
    ensures |r| > 1 && Begins(Assemble(k, r)) && KeyOf(Assemble(k, r)) == k
  {
    AloneIsWhole(p);
    assert BlockOf(p) in r;
    assert |r| == 1 ==> r == [BlockOf(p)];
    assert r[1..] != [] && Slice(r[1..][0], payload);
  }

  /** With b put on queue q, the first fragment of q has not been cut back. */
  ghost predicate FirstUncut(q: Option<Queue>, b: Block) {
    q.Some? && Insert(q.value.blist, b).Some? &&
    var r := Insert(q.value.blist, b).value;
    r != [] && r[0].flen == r[0].hlen
  }

  /** Fragment b has been collected by queue q: what is covered grows by it, and the
      datagram comes out exactly when nothing is missing. It is then the one that
      was sent exactly when its first fragment is uncut, as it is when no two
      fragments overlap; and it still says that more follows. */
  ghost predicate Collects(r: (Frags, Option<Packet>), q: Option<Queue>, key: Key, b: Block,
                           payload: Bytes, cov: set<nat>, blocks: set<Block>) {
    && Tracks(r.0, key, payload, Next(cov, b, |payload|), blocks)
    && (r.1.Some? <==> cov + Span(b) == Range(0, |payload|))
    && (r.1.Some? ==> KeyOf(r.1.value) == key && Begins(r.1.value))
    && (r.1.Some? ==> (r.1.value.data == payload <==> FirstUncut(q, b)))
    && (r.1.Some? && Apart(blocks) ==> r.1.value.data == payload)
  }

  lemma ExtendOurs(qs: seq<Queue>, free: nat, i: nat, p: Packet, payload: Bytes, cov: set<nat>, blocks: set<Block>)
    requires i < |qs| && Distinct(qs) && Sound(payload, blocks) && Fragment(p, payload, blocks) && cov != {}
    requires Slices(qs[i].blist, 0, payload) && Cover(qs[i].blist) == cov != Range(0, |payload|)
    requires Apart(blocks) ==> Within(qs[i].blist, blocks)
    requires Find(qs, qs[i].key) == Some(qs[i])
    ensures Collects(Extend(qs, free, i, BlockOf(p)), Some(qs[i]), qs[i].key, BlockOf(p), payload, cov, blocks)
  {
    var b := BlockOf(p);
    var r := Insert(qs[i].blist, b);
    LaterFragment(qs[i], b, payload, cov, blocks);
    if r.Some? && Complete(r.value, 0) {
      CompletedByTwo(qs[i].key, qs[i].blist, p, r.value, payload);
      RemoveOne(qs, i, qs[i].key);
      if Apart(blocks) {
        assert r.value[0] in r.value;
      }
    } else if r.Some? {
      ReplaceOne(qs, i, qs[i].(blist := r.value), qs[i].key);
    }
  }

  lemma HandleOurs(qs: seq<Queue>, free: nat, i: nat, p: Packet, now: nat, payload: Bytes, cov: set<nat>,
                   blocks: set<Block>)
    requires i <= |qs| && |qs| + free == NFRAG && Distinct(qs)
    requires if i < |qs| then Find(qs, KeyOf(p)) == Some(qs[i]) else Find(qs, KeyOf(p)).None?
    requires Sound(payload, blocks) && Fragment(p, payload, blocks) && Held(Find(qs, KeyOf(p)), payload, cov, blocks)
    ensures Collects(Handle(qs, free, i, p, now), Find(qs, KeyOf(p)), KeyOf(p), BlockOf(p), payload, cov, blocks)
  {
    var b := BlockOf(p);
    if i == |qs| {
      FirstFragment(b, p, payload, blocks);
      AllotOne(qs, free, KeyOf(p), b, now, KeyOf(p));
      assert {} + Span(b) == Span(b);
    } else {
      ExtendOurs(qs, free, i, p, payload, cov, blocks);
    }
  }

  /** Any fragment of our datagram is collected. */
  lemma OurArrival(st: Frags, p: Packet, now: nat, payload: Bytes, cov: set<nat>, blocks: set<Block>)
    requires Valid(st) && Sound(payload, blocks) && Fragment(p, payload, blocks)
    requires Tracks(st, KeyOf(p), payload, cov, blocks)
    ensures Collects(Reassemble(st, p, now), Find(st.active, KeyOf(p)), KeyOf(p), BlockOf(p), payload, cov, blocks)
  {
    var qs, free, i := OwnHandle(st, p, now);
    HandleOurs(qs, free, i, p, now, payload, cov, blocks);
  }

  lemma OwnHandle(st: Frags, p: Packet, now: nat) returns (qs: seq<Queue>, free: nat, i: nat)
    requires Valid(st) && !MustBeZero(p.frag)
    ensures i <= |qs| && |qs| + free == NFRAG && Distinct(qs)
    ensures Find(qs, KeyOf(p)) == Find(st.active, KeyOf(p)) == if i < |qs| then Some(qs[i]) else None
    ensures Reassemble(st, p, now) == Handle(qs, free, i, p, now)
  {
    var n := Locate(st.active, KeyOf(p));
    var kept := Purge(st.active[..n], now);
    qs, free, i := kept + st.active[n..], st.free + n - |kept|, |kept|;
    assert Reassemble(st, p, now) == Handle(qs, free, i, p, now);
    OwnWalk(st.active, KeyOf(p), now);
  }

  /** The walk stops at its own queue before looking at its age. */
  lemma OwnWalk(active: seq<Queue>, key: Key, now: nat)
    requires Distinct(active)
    ensures var i := Locate(active, key);
            var kept := Purge(active[..i], now);
            var qs := kept + active[i..];
            && Distinct(qs) && Find(qs, key) == Find(active, key)
            && (if |kept| < |qs| then Find(qs, key) == Some(qs[|kept|]) else Find(qs, key).None?)
  {
    var i := Locate(active, key);
    WalkKeeps(active, key, now, key);
    LocateSplit(active, key, now);
    FindConcat(active[..i], active[i..], key);
    FindConcat(Purge(active[..i], now), active[i..], key);
  }
}
