/** An IL connection from its first packet to its last: how it is established and
    closed, and what an established end takes in. */
module IlConnection {
  import opened IlControl
  import opened IlProtocol

  // ---------------------------------------------------------------- opening

  /** From the caller's sync, answered by the listener's and acknowledged, both ends
      are established, each knowing where the other's ids start. */
  lemma HandshakeEstablishes(x: Link) returns (x1: Link, x2: Link, x3: Link)
    requires Init(x)
    ensures Next(x, x1) && Next(x1, x2) && Next(x2, x3)
    ensures x3.a.state == Established && x3.b.state == Established
    ensures x3.a.start == x.a.start && x3.a.rstart == x3.a.recvd == x.b.start
    ensures x3.b.start == x.b.start && x3.b.rstart == x3.b.recvd == x.a.start
    ensures x3.gotA == [] && x3.gotB == [] && x3.sentA == [] && x3.sentB == []
  {
    var sync := Ctl(Sync, x.a.start, 0, 0);
    x1 := SyncHeard(x, sync);
    x2 := SyncAnswered(x1);
    var ack := Ctl(Ack, x2.a.next, x2.b.start, 0);
    x3 := BMoves(x2, Arrive(ack, false));
    assert Arrives(Arrive(ack, false), x2.ab);
    assert x2.gotB + [] == [] && x2.sentB + [] == [];
  }

  /** The listener has become a call that answers. */
  ghost predicate Answering(x: Link) {
    && x.a == InitialCb(Syncer, x.a.start) && CbOk(x.a)
    && x.b == InitialCb(Syncee, x.b.start).(rstart := x.a.start, recvd := x.a.start) && CbOk(x.b)
    && Ctl(Sync, x.b.start, x.a.start, 0) in x.ba
    && x.gotA == [] && x.gotB == [] && x.sentA == [] && x.sentB == []
  }

  lemma SyncHeard(x: Link, sync: Packet) returns (y: Link)
    requires Init(x) && sync == Ctl(Sync, x.a.start, 0, 0)
    ensures Next(x, y) && Answering(y) && y.a == x.a && y.b.start == x.b.start
  {
    y := BMoves(x, Arrive(sync, false));
    assert Arrives(Arrive(sync, false), x.ab);
    assert Step(x.b, Arrive(sync, false)).sent == [Ctl(Sync, x.b.start, x.a.start, 0)];
    assert x.gotB + [] == [] && x.sentB + [] == [];
  }

  lemma SyncAnswered(x: Link) returns (y: Link)
    requires Answering(x)
    ensures Next(x, y) && y.b == x.b && y.a == x.a.(state := Established, recvd := x.b.start, rstart := x.b.start)
    ensures Ctl(Ack, y.a.next, x.b.start, 0) in y.ab
    ensures y.gotA == [] && y.gotB == [] && y.sentA == [] && y.sentB == []
  {
    var e := Arrive(Ctl(Sync, x.b.start, x.a.start, 0), false);
    y := AMoves(x, e);
    assert Arrives(e, x.ba);
    assert Step(x.a, e).sent == [Ctl(Ack, x.a.next, x.b.start, 0)];
    assert x.gotA + [] == [] && x.sentA + [] == [];
  }

  /** The streams have not moved. */
  ghost predicate SameStreams(x: Link, y: Link) {
    y.gotA == x.gotA && y.gotB == x.gotB && y.sentA == x.sentA && y.sentB == x.sentB
  }

  /** However often the first packets were lost, and whatever the ends have been
      handed to send meanwhile, the caller's timer gets the connection established. */
  lemma HandshakeRecovers(x: Link) returns (x1: Link, x2: Link, x3: Link, x4: Link)
    requires Inv(x) && x.a.state == Syncer && (x.b.state == Listening || x.b.state == Syncee)
    ensures Next(x, x1) && Next(x1, x2) && Next(x2, x3) && Next(x3, x4)
    ensures x4.a.state == Established && x4.b.state == Established
    ensures x4.a.rstart == x4.a.recvd == x.b.start && x4.b.rstart == x4.b.recvd == x.a.start
    ensures SameStreams(x, x4)
  {
    var sync := Ctl(Sync, x.a.start, 0, 0);
    x1 := AMoves(x, Timeout(SendAck));
    assert Arrives(Timeout(SendAck), x.ba) && Step(x.a, Timeout(SendAck)).sent == [sync];
    assert x.gotA + [] == x.gotA && x.sentA + [] == x.sentA;
    NextInv(x, x1);
    x2 := SyncRepeated(x1, sync);
    NextInv(x1, x2);
    x3 := RepeatAnswered(x2);
    NextInv(x2, x3);
    x4 := AckHeard(x3, Ctl(Ack, x3.a.next, x.b.start, 0));
  }

  lemma SyncRepeated(x: Link, sync: Packet) returns (y: Link)
    requires Inv(x) && x.a.state == Syncer && (x.b.state == Listening || x.b.state == Syncee)
    requires sync == Ctl(Sync, x.a.start, 0, 0) && sync in x.ab
    ensures Next(x, y) && SameStreams(x, y) && y.a == x.a && y.b.state == Syncee && y.b.start == x.b.start
    ensures Ctl(Sync, y.b.start, y.a.start, 0) in y.ba
  {
    var e := Arrive(sync, false);
    y := BMoves(x, e);
    assert Arrives(e, x.ab) && Step(x.b, e).sent == [Ctl(Sync, x.b.start, x.a.start, 0)];
    assert x.gotB + [] == x.gotB && x.sentB + [] == x.sentB;
  }

  lemma RepeatAnswered(x: Link) returns (y: Link)
    requires Inv(x) && x.a.state == Syncer && x.b.state == Syncee && Ctl(Sync, x.b.start, x.a.start, 0) in x.ba
    ensures Next(x, y) && SameStreams(x, y) && y.b == x.b && y.a.start == x.a.start
    ensures y.a.state == Established && y.a.rstart == y.a.recvd == x.b.start
    ensures Ctl(Ack, y.a.next, x.b.start, 0) in y.ab
  {
    var e := Arrive(Ctl(Sync, x.b.start, x.a.start, 0), false);
    y := AMoves(x, e);
    assert Arrives(e, x.ba) && Step(x.a, e).sent == [Ctl(Ack, x.a.next, x.b.start, 0)];
    assert x.gotA + [] == x.gotA && x.sentA + [] == x.sentA;
  }

  lemma AckHeard(x: Link, ack: Packet) returns (y: Link)
    requires Inv(x) && x.b.state == Syncee && ack in x.ab && ack.kind == Ack && ack.ack == x.b.start
    ensures Next(x, y) && SameStreams(x, y) && y.a == x.a
    ensures y.b.state == Established && y.b.rstart == y.b.recvd == x.a.start
  {
    var e := Arrive(ack, false);
    y := BMoves(x, e);
    assert Arrives(e, x.ab);
    assert x.gotB + [] == x.gotB && x.sentB + [] == x.sentB;
  }

  /** The caller is established but its acknowledgement was lost: the callee's timer
      brings another. */
  lemma AckRecovers(x: Link) returns (x1: Link, x2: Link, x3: Link)
    requires Inv(x) && x.a.state == Established && x.b.state == Syncee
    ensures Next(x, x1) && Next(x1, x2) && Next(x2, x3)
    ensures x3.a == x.a && x3.b.state == Established && x3.b.rstart == x3.b.recvd == x.a.start && SameStreams(x, x3)
  {
    x1 := SyncTicked(x);
    NextInv(x, x1);
    x2 := SyncAcked(x1);
    NextInv(x1, x2);
    x3 := AckHeard(x2, Ctl(Ack, x.a.next, x.b.start, 0));
  }

  lemma SyncTicked(x: Link) returns (y: Link)
    requires Inv(x) && x.a.state == Established && x.b.state == Syncee
    ensures Next(x, y) && SameStreams(x, y) && y.a == x.a && y.b == x.b
    ensures Ctl(Sync, x.b.start, x.b.recvd, 0) in y.ba
  {
    y := BMoves(x, Timeout(SendAck));
    assert Arrives(Timeout(SendAck), x.ab);
    assert Step(x.b, Timeout(SendAck)).sent == [Ctl(Sync, x.b.start, x.b.recvd, 0)];
    assert x.gotB + [] == x.gotB && x.sentB + [] == x.sentB;
  }

  lemma SyncAcked(x: Link) returns (y: Link)
    requires Inv(x) && x.a.state == Established && x.b.state == Syncee && Ctl(Sync, x.b.start, x.b.recvd, 0) in x.ba
    ensures Next(x, y) && SameStreams(x, y) && y.a == x.a && y.b == x.b
    ensures Ctl(Ack, x.a.next, x.b.start, 0) in y.ab
  {
    var e := Arrive(Ctl(Sync, x.b.start, x.b.recvd, 0), false);
    y := AMoves(x, e);
    assert Arrives(e, x.ba) && Step(x.a, e).sent == [Ctl(Ack, x.a.next, x.b.start, 0)];
    assert x.gotA + [] == x.gotA && x.sentA + [] == x.sentA;
  }

  /** A caller is established by exactly the sync that acknowledges its start, and
      hung up by exactly a sync that does not or a close that does. */
  lemma CallerHears(c: Cb, p: Packet, full: bool)
    requires CbOk(c) && c.next >= 1 && c.state == Syncer
    ensures var o := Process(c, p, full);
      && (o.cb.state == Established <==> p.kind == Sync && p.ack == c.start)
      && (o.cb.state == Closed <==> (p.kind == Sync && p.ack != c.start) || (p.kind == Close && p.ack == c.start))
      && (o.cb.state == Established ==>
            o.cb.rstart == p.id <= o.cb.recvd && o.sent == [Ctl(Ack, c.next, p.id, 0)])
      && (o.cb.state != Established ==> o == Quiet(c.(state := o.cb.state)))
  {
    PullLoopKeeps(c.(recvd := p.id, rstart := p.id, state := Established));
    PullLoopMoves(c.(recvd := p.id, rstart := p.id, state := Established));
  }

  lemma {:induction false} PullLoopMoves(c: Cb)
    ensures PullLoop(c).cb.recvd >= c.recvd
    decreases |c.outo|
  {
    if c.outo != [] {
      var p, rest := c.outo[0], c.outo[1..];
      if p.id <= c.recvd {
        PullLoopMoves(c.(outo := rest));
      } else if p.id == c.recvd + 1 {
        PullLoopMoves(c.(recvd := p.id, outo := rest));
      }
    }
  }

  /** A callee is established by exactly an acknowledgement of its start, hung up by
      exactly a foreign sync or a close that acknowledges it, and answers its own
      caller's sync again. */
  lemma CalleeHears(c: Cb, p: Packet, full: bool)
    requires CbOk(c) && c.next >= 1 && c.state == Syncee
    ensures var o := Process(c, p, full);
      && (o.cb.state == Established <==> (p.kind == Ack || p.kind == Data) && p.ack == c.start)
      && (o.cb.state == Closed <==>
            (p.kind == Sync && (p.id != c.rstart || p.ack != 0)) || (p.kind == Close && p.ack == c.start))
      && (p.kind == Sync && o.cb.state != Closed ==> o == Out(c.(recvd := p.id), [Ctl(Sync, c.start, p.id, 0)], []))
      && (o.cb.state == Closed ==> o == Quiet(c.(state := Closed)))
  {
    var d := c.(state := Established);
    PullLoopKeeps(d);
    ReceiveKeeps(d, p);
  }

  /** A listener stays one until it hears a sync, and turns away one that
      acknowledges something. */
  lemma ListenerHears(c: Cb, p: Packet, full: bool)
    requires CbOk(c) && c.next >= 1 && c.state == Listening
    ensures var o := Process(c, p, full);
      && (p.kind != Sync ==> o == Quiet(c))
      && (p.kind == Sync ==> o.up == [] && o.cb.start == c.start && o.cb.rstart == p.id)
      && (p.kind == Sync && p.ack == 0 ==>
            o.cb.state == Syncee && o.cb.recvd == p.id && o.sent == [Ctl(Sync, c.start, p.id, 0)])
      && (p.kind == Sync && p.ack != 0 ==> o.cb.state == Closed && o.sent == [])
  {}

  /** An established end is hung up by exactly a foreign sync, and begins to close on
      exactly a close that acknowledges something it may have sent. */
  lemma EstablishedHears(c: Cb, p: Packet, full: bool)
    requires CbOk(c) && c.next >= 1 && c.state == Established
    ensures var o := Process(c, p, full);
      && (o.cb.state == Closed <==> p.kind == Sync && p.id != c.rstart)
      && (o.cb.state == Closing <==> p.kind == Close && c.start <= p.ack <= c.next)
      && (o.cb.state == Closing || o.cb.state == Closed || o.cb.state == Established)
      && (p.kind == Sync && p.id == c.rstart ==> o == Out(c, [Ctl(Ack, c.next, c.rstart, 0)], []))
  {
    ReceiveKeeps(c, p);
  }

  // ---------------------------------------------------------------- what an established end takes in

  /** Acknowledged messages leave the unacked list, and no others. */
  lemma {:induction false} DropAckedIs(q: seq<Packet>, ackto: nat)
    requires forall i, j :: 0 <= i < j < |q| ==> q[i].id < q[j].id
    ensures forall p :: p in DropAcked(q, ackto) <==> p in q && p.id > ackto
  {
    if q != [] && q[0].id <= ackto {
      DropAckedIs(q[1..], ackto);
      assert q == [q[0]] + q[1..];
    }
  }

  /** Every packet that carries an acknowledgement, in any established end, removes
      exactly what it acknowledges, except a message that finds the reader's queue
      full. */
  lemma AckTaken(c: Cb, p: Packet, full: bool, sent: seq<Msg>)
    requires CbOk(c) && c.next >= 1 && c.state == Established && UnackedTail(c, sent)
    requires p.kind == Data ==> !full
    requires p.kind != Sync && p.kind != Close
    ensures var o := Process(c, p, full);
      forall d :: d in o.cb.unacked <==> d in c.unacked && d.id > p.ack
  {
    DropAckedIs(c.unacked, p.ack);
    ReceiveKeeps(c, p);
  }

  /** A state reply makes an end resend its oldest unacknowledged message exactly if
      something sent by the time of the query is still missing there. */
  lemma ReplyResendsIff(c: Cb, p: Packet, full: bool, sent: seq<Msg>)
    requires CbOk(c) && c.next >= 1 && c.state == Established && UnackedTail(c, sent) && p.kind == StateReply
    ensures var o := Process(c, p, full);
      && (o.sent != [] <==>
            c.qt[if p.spec <= NQT then p.spec else 0] > p.ack && exists d :: d in c.unacked && d.id > p.ack)
      && forall d :: d in o.sent ==>
           d.kind == DataQuery && d.id > p.ack && forall e :: e in o.cb.unacked ==> d.id <= e.id
  {
    DropAckedIs(c.unacked, p.ack);
    DropAckedTail(c, c.unacked, p.ack, sent, 0);
    var u := DropAcked(c.unacked, p.ack);
    if u != [] {
      assert u[0] in u;
    }
  }

  ghost predicate Waits(q: seq<Packet>, id: nat) {
    exists i :: 0 <= i < |q| && q[i].id == id
  }

  lemma WaitsConcat(a: seq<Packet>, b: seq<Packet>, id: nat)
    ensures Waits(a + b, id) <==> Waits(a, id) || Waits(b, id)
  {
    if Waits(a, id) {
      var i :| 0 <= i < |a| && a[i].id == id;
      assert (a + b)[i].id == id;
    }
    if Waits(b, id) {
      var i :| 0 <= i < |b| && b[i].id == id;
      assert (a + b)[|a| + i].id == id;
    }
  }

  lemma {:induction false} InsertWaits(q: seq<Packet>, p: Packet, id: nat)
    ensures Waits(Insert(q, p), id) <==> Waits(q, id) || id == p.id
  {
    assert [p][0].id == p.id;
    if q != [] {
      assert q == [q[0]] + q[1..];
      if p.id < q[0].id {
        WaitsConcat([p], q, id);
      } else if p.id == q[0].id {
        assert q[0].id == p.id;
      } else {
        InsertWaits(q[1..], p, id);
        WaitsConcat([q[0]], Insert(q[1..], p), id);
        WaitsConcat([q[0]], q[1..], id);
      }
    }
  }

  /** What waits goes on waiting until it has been passed up. */
  lemma {:induction false} PullLoopWaits(c: Cb, id: nat)
    requires Waits(c.outo, id) || id <= c.recvd
    ensures var o := PullLoop(c); Waits(o.cb.outo, id) || id <= o.cb.recvd
    decreases |c.outo|
  {
    if c.outo != [] {
      var p, rest := c.outo[0], c.outo[1..];
      assert c.outo == [p] + rest;
      WaitsConcat([p], rest, id);
      if p.id <= c.recvd {
        PullLoopWaits(c.(outo := rest), id);
      } else if p.id == c.recvd + 1 {
        PullLoopWaits(c.(recvd := p.id, outo := rest), id);
      }
    }
  }

  /** A message inside the window that finds room is passed up or waits, and so does
      every message that waited already. */
  lemma MessageKept(c: Cb, p: Packet, full: bool, id: nat)
    requires CbOk(c) && c.next >= 1 && c.state == Established && IsMessage(p) && (p.kind == Data ==> !full)
    requires Waits(c.outo, id) || (id == p.id && p.id <= c.recvd + c.window)
    ensures var o := Process(c, p, full); Waits(o.cb.outo, id) || id <= o.cb.recvd
  {
    var d := AckTo(c, p.ack);
    InsertWaits(c.outo, p, id);
    PullLoopWaits(OutOfOrder(d, p), id);
  }

  /** In every run, the next message wanted is passed up as soon as it arrives and
      finds room, whether sent for the first time or again. */
  lemma NextMessagePassedUp(run: seq<Link>, p: Packet) returns (y: Link)
    requires IsRun(run) && run[|run| - 1].b.state == Established
    requires var x := run[|run| - 1]; IsMessage(p) && p in x.ab && p.id == x.b.recvd + 1
    ensures var x := run[|run| - 1];
      && Next(x, y) && y.sentA == x.sentA
      && |x.gotB| < |y.gotB| && x.gotB + [p.msg] <= y.gotB && y.gotB <= y.sentA
  {
    RunInv(run);
    var x := run[|run| - 1];
    var e := Arrive(p, false);
    y := BMoves(x, e);
    assert Arrives(e, x.ab) && Honest(p, x.a, x.sentA);
    ReceiveReceives(x.a, x.b, p, x.sentA, x.gotB);
    NextInv(x, y);
    assert y.gotB[|x.gotB|] == x.sentA[|x.gotB|] == p.msg;
  }

  // ---------------------------------------------------------------- closing

  /** When one end of an established connection is closed, an exchange of closes
      brings both ends to closed, with nothing more passed up. */
  lemma CloseCompletes(x: Link) returns (x1: Link, x2: Link, x3: Link, x4: Link)
    requires Inv(x) && x.a.state == Established && x.b.state == Established
    ensures Next(x, x1) && Next(x1, x2) && Next(x2, x3) && Next(x3, x4)
    ensures x4.a.state == Closed && x4.b.state == Closed
    ensures x4.gotA == x.gotA && x4.gotB == x.gotB && x4.sentA == x.sentA && x4.sentB == x.sentB
  {
    x1 := CloseSent(x);
    x2 := CloseHeard(x1);
    x3 := CloseAnswered(x2);
    x4 := CloseEnds(x3);
  }

  lemma CloseSent(x: Link) returns (y: Link)
    requires Inv(x) && x.a.state == Established && x.b.state == Established
    ensures Next(x, y) && SameStreams(x, y) && y.b == x.b && y.a.state == Closing && CbOk(y.a) && CbOk(y.b)
    ensures y.a.next >= 1 && y.b.next >= 1
    ensures Ctl(Close, y.a.next, y.a.recvd, 0) in y.ab && y.b.start <= y.a.recvd <= y.b.next
  {
    y := AMoves(x, Hang);
    assert Arrives(Hang, x.ba);
    assert Step(x.a, Hang).sent == [Ctl(Close, x.a.next, x.a.recvd, 0)];
    assert x.gotA + [] == x.gotA && x.sentA + [] == x.sentA;
  }

  lemma CloseHeard(x: Link) returns (y: Link)
    requires CbOk(x.a) && CbOk(x.b) && x.a.next >= 1 && x.b.next >= 1
    requires x.a.state == Closing && x.b.state == Established
    requires Ctl(Close, x.a.next, x.a.recvd, 0) in x.ab && x.b.start <= x.a.recvd <= x.b.next
    ensures Next(x, y) && SameStreams(x, y) && y.a == x.a && y.b.state == Closing && CbOk(y.b) && y.b.next == x.b.next
    ensures Ctl(Close, y.b.next, y.a.next, 0) in y.ba
  {
    var e := Arrive(Ctl(Close, x.a.next, x.a.recvd, 0), false);
    y := BMoves(x, e);
    assert Arrives(e, x.ab);
    assert Step(x.b, e).sent == [Ctl(Close, x.b.next, x.a.next, 0)];
    assert x.gotB + [] == x.gotB && x.sentB + [] == x.sentB;
  }

  lemma CloseAnswered(x: Link) returns (y: Link)
    requires CbOk(x.a) && CbOk(x.b) && x.a.next >= 1 && x.b.next >= 1
    requires x.a.state == Closing && x.b.state == Closing && Ctl(Close, x.b.next, x.a.next, 0) in x.ba
    ensures Next(x, y) && SameStreams(x, y) && y.b == x.b && y.a.state == Closed && CbOk(y.a) && y.a.next == x.a.next
    ensures Ctl(Close, y.a.next, y.b.next, 0) in y.ab
  {
    var e := Arrive(Ctl(Close, x.b.next, x.a.next, 0), false);
    y := AMoves(x, e);
    assert Arrives(e, x.ba);
    assert Step(x.a, e).sent == [Ctl(Close, x.a.next, x.b.next, 0)];
    assert x.gotA + [] == x.gotA && x.sentA + [] == x.sentA;
  }

  lemma CloseEnds(x: Link) returns (y: Link)
    requires CbOk(x.a) && CbOk(x.b) && x.a.next >= 1 && x.b.next >= 1
    requires x.b.state == Closing && Ctl(Close, x.a.next, x.b.next, 0) in x.ab
    ensures Next(x, y) && SameStreams(x, y) && y.a == x.a && y.b.state == Closed
  {
    var e := Arrive(Ctl(Close, x.a.next, x.b.next, 0), false);
    y := BMoves(x, e);
    assert Arrives(e, x.ab);
    assert x.gotB + [] == x.gotB && x.sentB + [] == x.sentB;
  }
}
