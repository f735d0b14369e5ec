/** The reassembly queues as the host keeps them, updated in place. */
module IpQueues {
  import opened IpFragment
  import opened IpReassembly
  import IpArrivals
  import opened Wrappers

  lemma {:induction false} PurgeSnoc(qs: seq<Queue>, q: Queue, now: nat)
    ensures Purge(qs + [q], now) == Purge(qs, now) + (if q.age < now then [] else [q])
  {
    if qs == [] {
      assert qs + [q] == [q] && [q][1..] == [];
    } else {
      var t := qs[1..] + [q];
      assert qs + [q] == [qs[0]] + t && ([qs[0]] + t)[1..] == t;
      PurgeSnoc(qs[1..], q, now);
      var z := if q.age < now then [] else [q];
      if qs[0].age < now {
        assert [] + Purge(t, now) == Purge(t, now) && [] + Purge(qs[1..], now) == Purge(qs[1..], now);
      } else {
        assert [qs[0]] + (Purge(qs[1..], now) + z) == ([qs[0]] + Purge(qs[1..], now)) + z;
      }
    }
  }

  lemma {:induction false} PlaceIs(bs: seq<Block>, foff: nat, i: nat)
    requires i <= |bs| && (forall j :: 0 <= j < i ==> bs[j].foff < foff) && (i < |bs| ==> bs[i].foff >= foff)
    ensures i == Place(bs, foff)
  {
    if i > 0 {
      PlaceIs(bs[1..], foff, i - 1);
    }
  }

  /** The position search, the trimming of both neighbours and the linking in. */
  method InsertBlock(bs: seq<Block>, b: Block) returns (r: Option<seq<Block>>)
    ensures r == Insert(bs, b)
  {
    var i := 0;
    while i < |bs| && b.foff > bs[i].foff
      invariant i <= |bs| && forall j :: 0 <= j < i ==> bs[j].foff < b.foff
    {
      i := i + 1;
    }
    PlaceIs(bs, b.foff, i);
    var left := TrimPrev(bs[..i], b);
    if left.None? {
      return None;
    }
    var right := TrimNext(bs[i..], b.foff + b.flen);
    r := Some(left.value + ([b] + right));
  }

  /** The trimming of the segment in front; None when b is covered by it. */
  method TrimPrev(bs: seq<Block>, b: Block) returns (left: Option<seq<Block>>)
    requires bs != [] ==> bs[|bs| - 1].foff < b.foff
    ensures var ovlap := Overlap(bs, b.foff);
            left == if ovlap > 0 && ovlap >= b.flen then None else Some(TrimBack(bs, b.foff))
  {
    if bs != [] {
      var prev := bs[|bs| - 1];
      var ovlap := prev.foff + prev.flen - b.foff;
      if ovlap > 0 {
        if ovlap >= b.flen {
          return None;
        }
        return Some(bs[..|bs| - 1] + [prev.(flen := prev.flen - ovlap)]);
      }
    }
    left := Some(bs);
  }

  /** Take out the segments that are covered up to fend. */
  method TrimNext(bs: seq<Block>, fend: nat) returns (right: seq<Block>)
    ensures right == TrimFront(bs, fend)
  {
    right := bs;
    while right != []
      invariant TrimFront(right, fend) == TrimFront(bs, fend)
      decreases |right|
    {
      var ovlap := fend - right[0].foff;
      if ovlap <= 0 {
        return;
      }
      if ovlap < right[0].flen {
        var n := right[0];
        return [Block(n.frag, n.hlen, Drop(n.data, ovlap), (n.foff + ovlap) % 0x1_0000, n.flen - ovlap)] + right[1..];
      }
      right := right[1..];
    }
  }

  lemma {:induction false} LocateIs(qs: seq<Queue>, key: Key, i: nat)
    requires i <= |qs| && (forall j :: 0 <= j < i ==> qs[j].key != key) && (i < |qs| ==> qs[i].key == key)
    ensures i == Locate(qs, key)
  {
    if i > 0 {
      LocateIs(qs[1..], key, i - 1);
    }
  }

  /** The list is cur and the search at i when it has passed the first k queues. */
  ghost predicate Walked(qs: seq<Queue>, k: nat, now: nat, cur: seq<Queue>, i: nat) {
    k <= |qs| && cur == Purge(qs[..k], now) + qs[k..] && i == |Purge(qs[..k], now)|
  }

  /** One turn of the search: queue k is freed or passed over. */
  lemma WalkTurn(qs: seq<Queue>, k: nat, now: nat, cur: seq<Queue>, i: nat)
    requires Walked(qs, k, now, cur, i) && k < |qs|
    ensures i < |cur| && cur[i] == qs[k]
    ensures if qs[k].age < now then Walked(qs, k + 1, now, cur[..i] + cur[i + 1..], i)
            else Walked(qs, k + 1, now, cur, i + 1)
  {
    var kept := Purge(qs[..k], now);
    assert qs[..k + 1] == qs[..k] + [qs[k]] && qs[k..] == [qs[k]] + qs[k + 1..];
    PurgeSnoc(qs[..k], qs[k], now);
    CutOne(kept, qs[k], qs[k + 1..]);
  }

  lemma CutOne(a: seq<Queue>, q: Queue, b: seq<Queue>)
    ensures var c := a + ([q] + b); |a| < |c| && c[|a|] == q && c[..|a|] + c[|a| + 1..] == a + b && (a + [q]) + b == c
  {
    var c := a + ([q] + b);
    assert c[..|a|] == a && c[|a| + 1..] == b;
  }

  lemma WalkPlace(qs: seq<Queue>, k: nat, now: nat, cur: seq<Queue>, i: nat)
    requires Walked(qs, k, now, cur, i)
    ensures if k < |qs| then i < |cur| && cur[i] == qs[k] else i == |cur|
  {}

  /** The search has stopped. */
  lemma SearchEnds(qs: seq<Queue>, k: nat, now: nat, cur: seq<Queue>, i: nat, key: Key)
    requires Walked(qs, k, now, cur, i) && (forall j :: 0 <= j < k ==> qs[j].key != key)
    requires i == |cur| || cur[i].key == key
    ensures k == Locate(qs, key)
  {
    WalkPlace(qs, k, now, cur, i);
    LocateIs(qs, key, k);
  }

  /** The walk over an assembled-so-far queue. */
  method IsComplete(bs: seq<Block>) returns (whole: bool)
    ensures whole == Complete(bs, 0)
  {
    var pktposn: nat, i: nat := 0, 0;
    while i < |bs|
      invariant i <= |bs| && Complete(bs[i..], pktposn) == Complete(bs, 0)
    {
      assert bs[i..][0] == bs[i] && bs[i..][1..] == bs[i + 1..];
      if bs[i].foff != pktposn {
        return false;
      }
      if !More(bs[i].frag) {
        return true;
      }
      pktposn := pktposn + bs[i].flen;
      i := i + 1;
    }
    whole := false;
  }

  /** The loop that strips the later headers. */
  method PullTogether(k: Key, bs: seq<Block>) returns (p: Packet)
    requires bs != []
    ensures p == Assemble(k, bs)
  {
    var data := Take(bs[0].data, bs[0].hlen);
    var i := 1;
    while i < |bs|
      invariant 1 <= i <= |bs|
      invariant data + TailData(bs[i..]) == Take(bs[0].data, bs[0].hlen) + TailData(bs[1..])
    {
      assert bs[i..][1..] == bs[i + 1..];
      data := data + Take(bs[i].data, bs[i].flen);
      i := i + 1;
    }
    p := Packet(k.src, k.dst, k.id, bs[0].frag, data);
  }

  class IP {
    var flisthead: seq<Queue>
    var fragfree: nat

    ghost predicate Counted()
      reads this
    {
      |flisthead| + fragfree == NFRAG
    }

    ghost function State(): Frags
      reads this
    {
      Frags(flisthead, fragfree)
    }

    constructor ()
      ensures State() == Frags([], NFRAG) && IpArrivals.Valid(State())
    {
      flisthead, fragfree := [], NFRAG;
    }

    method FragFree(i: nat)
      requires i < |flisthead|
      modifies this
      ensures flisthead == old(flisthead)[..i] + old(flisthead)[i + 1..] && fragfree == old(fragfree) + 1
    {
      flisthead := flisthead[..i] + flisthead[i + 1..];
      fragfree := fragfree + 1;
    }

    method FragAllo(key: Key, b: Block, now: nat)
      requires Counted()
      modifies this
      ensures State() == Allot(old(flisthead), old(fragfree), key, b, now)
    {
      while fragfree == 0
        invariant fragfree > 0 || State() == old(State())
        invariant fragfree > 0 && old(fragfree) > 0 ==> State() == old(State())
        invariant fragfree > 0 && old(fragfree) == 0 ==>
                    State() == Frags(old(flisthead)[..|old(flisthead)| - 1], 1)
        decreases if fragfree == 0 then 1 else 0
      {
        ghost var was := flisthead;
        FragFree(|flisthead| - 1);
        assert was[..|was| - 1] + was[|was|..] == was[..|was| - 1];
      }
      fragfree := fragfree - 1;
      flisthead := [Queue(key, [b], now + LIFETIME)] + flisthead;
    }

    /** The search for key, freeing the expired queues it passes. */
    method Search(key: Key, now: nat) returns (i: nat)
      requires Counted()
      modifies this
      ensures var n := Locate(old(flisthead), key);
              var kept := Purge(old(flisthead)[..n], now);
              i == |kept| && flisthead == kept + old(flisthead)[n..] && fragfree == old(fragfree) + n - |kept|
    {
      i := 0;
      ghost var k: nat := 0;
      ghost var qs := flisthead;
      while i < |flisthead| && flisthead[i].key != key
        invariant k <= |qs| && forall j :: 0 <= j < k ==> qs[j].key != key
        invariant Walked(qs, k, now, flisthead, i) && fragfree == old(fragfree) + k - i
        decreases |flisthead| - i
      {
        WalkPlace(qs, k, now, flisthead, i);
        WalkTurn(qs, k, now, flisthead, i);
        k := k + 1;
        if flisthead[i].age < now {
          FragFree(i);
        } else {
          i := i + 1;
        }
      }
      SearchEnds(qs, k, now, flisthead, i, key);
    }

    /** ip4reassemble */
    method Reassemble(p: Packet, now: nat) returns (o: Option<Packet>)
      requires Counted()
      modifies this
      ensures (State(), o) == IpReassembly.Reassemble(old(State()), p, now)
    {
      if MustBeZero(p.frag) {
        return None;
      }
      var i := Search(KeyOf(p), now);
      if Whole(p.frag) {
        if i < |flisthead| {
          FragFree(i);
        }
        return Some(p);
      }
      if i == |flisthead| {
        FragAllo(KeyOf(p), BlockOf(p), now);
        return None;
      }
      o := ExtendQueue(i, BlockOf(p));
    }

    /** Put b on queue i, and hand up the datagram if it is complete. */
    method ExtendQueue(i: nat, b: Block) returns (o: Option<Packet>)
      requires i < |flisthead|
      modifies this
      ensures (State(), o) == Extend(old(flisthead), old(fragfree), i, b)
    {
      var q := flisthead[i];
      var r := InsertBlock(q.blist, b);
      if r.None? {
        return None;
      }
      var whole := IsComplete(r.value);
      if whole {
        var d := PullTogether(q.key, r.value);
        FragFree(i);
        return Some(d);
      }
      flisthead := flisthead[i := q.(blist := r.value)];
      return None;
    }
  }
}
