/** One IL end as the program keeps it: a control block updated in place, each
    operation proved to be the step of IlControl that it stands for. Packets to
    send and messages to pass up are returned to the caller. */
module IlMemory {
  import opened IlControl

  lemma InsertPasses(q: seq<Packet>, p: Packet, i: nat)
    requires i < |q| && p.id > q[i].id
    ensures q[..i] + Insert(q[i..], p) == q[..i + 1] + Insert(q[i + 1..], p)
  {
    assert q[i..][1..] == q[i + 1..];
    assert q[..i + 1] == q[..i] + [q[i]];
  }

  /** The insertion loop of iloutoforder. */
  method InsertPacket(q: seq<Packet>, p: Packet) returns (r: seq<Packet>)
    ensures r == Insert(q, p)
  {
    var i := 0;
    while i < |q| && p.id > q[i].id
      invariant 0 <= i <= |q| && Insert(q, p) == q[..i] + Insert(q[i..], p)
    {
      InsertPasses(q, p, i);
      i := i + 1;
    }
    if i < |q| && p.id == q[i].id {
      assert q == q[..i] + q[i..];
      return q;
    }
    assert Insert(q[i..], p) == [p] + q[i..];
    r := q[..i] + [p] + q[i..];
  }

  class Ilcb {
    var state: State
    var next: nat
    var recvd: nat
    var start: nat
    var rstart: nat
    var window: nat
    var unacked: seq<Packet>
    var outoforder: seq<Packet>
    const qt: array<nat>
    var qtx: nat

    ghost predicate Valid()
      reads this, qt
    {
      qt.Length == NQT + 1 && CbOk(View()) && next >= 1
    }

    ghost function View(): Cb
      reads this, qt
    {
      Cb(state, next, recvd, start, rstart, window, unacked, outoforder, qt[..], qtx)
    }

    /** ilcbinit on a fresh block; nrand chose the start. */
    constructor (state: State, start: nat)
      ensures Valid() && View() == InitialCb(state, start) && fresh(qt)
    {
      this.state, this.start, next, recvd, rstart := state, start, start + 1, 0, 0;
      window, unacked, outoforder, qtx := DEFAULT_WINDOW, [], [], 1;
      qt := new nat[NQT + 1](_ => 0);
    }

    method AckTo(ackto: nat)
      requires Valid()
      modifies this`unacked
      ensures Valid() && View() == IlControl.AckTo(old(View()), ackto)
    {
      while unacked != []
        invariant DropAcked(unacked, ackto) == DropAcked(old(unacked), ackto)
        decreases |unacked|
      {
        if ackto < unacked[0].id {
          break;
        }
        unacked := unacked[1..];
      }
    }

    method OutOfOrder(p: Packet)
      requires Valid()
      modifies this`outoforder
      ensures Valid() && View() == IlControl.OutOfOrder(old(View()), p)
    {
      if p.id <= recvd || p.id > recvd + window {
        return;
      }
      var q := InsertPacket(outoforder, p);
      outoforder := q;
    }

    method PullUp() returns (up: seq<Msg>)
      requires Valid()
      modifies this`recvd, this`outoforder
      ensures Valid() && Out(View(), [], up) == IlControl.PullUp(old(View()))
    {
      up := [];
      if state != Established {
        return;
      }
      PullLoopKeeps(View());
      while outoforder != []
        invariant Valid() && PullLoop(old(View())).cb == PullLoop(View()).cb
        invariant PullLoop(old(View())).up == up + PullLoop(View()).up
        decreases |outoforder|
      {
        var p := outoforder[0];
        ghost var rest := PullLoop(View());
        if p.id <= recvd {
          outoforder := outoforder[1..];
        } else if p.id != recvd + 1 {
          break;
        } else {
          recvd := p.id;
          outoforder := outoforder[1..];
          assert up + [p.msg] + PullLoop(View()).up == up + rest.up;
          up := up + [p.msg];
        }
      }
    }

    method NextQt() returns (x: nat)
      requires Valid()
      modifies this`qtx, qt
      ensures Valid() && View() == IlControl.NextQt(old(View())) && x == qtx
    {
      x := qtx + 1;
      if x > NQT {
        x := 1;
      }
      qtx := x;
      qt[x] := next - 1;
      qt[0] := qt[x];
    }

    method Rexmit() returns (sent: seq<Packet>)
      requires Valid()
      modifies this`qtx, qt
      ensures Valid() && Out(View(), sent, []) == IlControl.Rexmit(old(View()))
    {
      if unacked == [] {
        return [];
      }
      var x := NextQt();
      sent := [unacked[0].(kind := DataQuery, ack := recvd, spec := x)];
    }

    method Kick(m: Msg) returns (sent: seq<Packet>)
      requires Valid()
      modifies this`next, this`unacked
      ensures Valid() && Out(View(), sent, []) == IlControl.Kick(old(View()), m)
    {
      if state == Closed || state == Listening || state == Closing {
        return [];
      }
      var p := Packet(Data, next, recvd, 0, m);
      next := next + 1;
      unacked := unacked + [p];
      sent := [p];
    }

    method FreeQueues()
      requires Valid()
      modifies this`unacked, this`outoforder
      ensures Valid() && View() == old(View()).(unacked := [], outo := [])
    {
      unacked, outoforder := [], [];
    }

    method Close() returns (sent: seq<Packet>)
      requires Valid()
      modifies this`state, this`unacked, this`outoforder
      ensures Valid() && Out(View(), sent, []) == LocalClose(old(View()))
    {
      sent := [];
      if state == Syncer || state == Syncee || state == Established {
        state := Closing;
        sent := [Ctl(IlControl.Kind.Close, next, recvd, 0)];
      } else if state == Listening {
        state := Closed;
      }
      FreeQueues();
    }

    method Receive(p: Packet) returns (up: seq<Msg>)
      requires Valid()
      modifies this`unacked, this`outoforder, this`recvd
      ensures Valid() && Out(View(), [], up) == IlControl.Receive(old(View()), p)
    {
      ReceiveKeeps(View(), p);
      AckTo(p.ack);
      OutOfOrder(p);
      up := PullUp();
    }

    method ProcessEstablished(p: Packet, full: bool) returns (sent: seq<Packet>, up: seq<Msg>)
      requires Valid()
      modifies this, qt
      ensures Valid() && Out(View(), sent, up) == InEstablished(old(View()), p, full)
    {
      sent, up := [], [];
      match p.kind
      case Sync =>
        if p.id != rstart {
          state := Closed;
        } else {
          sent := [Ctl(Ack, next, rstart, 0)];
        }
      case Data =>
        if !full {
          up := Receive(p);
        }
      case DataQuery =>
        up := Receive(p);
        sent := [Ctl(StateReply, next, recvd, p.spec)];
      case Ack => AckTo(p.ack);
      case Query =>
        AckTo(p.ack);
        sent := [Ctl(StateReply, next, recvd, p.spec)];
      case StateReply =>
        AckTo(p.ack);
        var x := if p.spec > NQT then 0 else p.spec;
        if qt[x] > p.ack {
          sent := Rexmit();
        }
      case Close =>
        if p.ack < start || p.ack > next {
          return;
        }
        recvd := p.id;
        sent := [Ctl(IlControl.Kind.Close, next, recvd, 0)];
        state := Closing;
        FreeQueues();
    }

    method ProcessSyncer(p: Packet) returns (sent: seq<Packet>, up: seq<Msg>)
      requires Valid()
      modifies this
      ensures Valid() && Out(View(), sent, up) == InSyncer(old(View()), p)
    {
      sent, up := [], [];
      if p.kind == Sync {
        if p.ack != start {
          state := Closed;
        } else {
          recvd, rstart := p.id, p.id;
          sent := [Ctl(Ack, next, recvd, 0)];
          state := Established;
          up := PullUp();
        }
      } else if p.kind == IlControl.Kind.Close && p.ack == start {
        state := Closed;
      }
    }

    method ProcessSyncee(p: Packet, full: bool) returns (sent: seq<Packet>, up: seq<Msg>)
      requires Valid()
      modifies this, qt
      ensures Valid() && Out(View(), sent, up) == InSyncee(old(View()), p, full)
    {
      sent, up := [], [];
      match p.kind
      case Sync =>
        if p.id != rstart || p.ack != 0 {
          state := Closed;
        } else {
          recvd := p.id;
          sent := [Ctl(Sync, start, recvd, 0)];
        }
      case Ack =>
        if p.ack == start {
          state := Established;
          PullLoopKeeps(View());
          up := PullUp();
        }
      case Data =>
        if p.ack == start {
          state := Established;
          sent, up := ProcessEstablished(p, full);
        }
      case Close =>
        if p.ack == start {
          state := Closed;
        }
      case _ =>
    }

    /** _ilprocess, with the part of iliput that turns a listener into a call. */
    method Process(p: Packet, full: bool) returns (sent: seq<Packet>, up: seq<Msg>)
      requires Valid()
      modifies this, qt
      ensures Valid() && Out(View(), sent, up) == IlControl.Process(old(View()), p, full)
    {
      sent, up := [], [];
      match state
      case Syncer => sent, up := ProcessSyncer(p);
      case Syncee => sent, up := ProcessSyncee(p, full);
      case Established => sent, up := ProcessEstablished(p, full);
      case Closing =>
        if p.kind == IlControl.Kind.Close {
          recvd := p.id;
          sent := [Ctl(IlControl.Kind.Close, next, recvd, 0)];
          if p.ack == next {
            state := Closed;
          }
        }
      case Listening =>
        if p.kind == Sync {
          Become(p.id);
          sent, up := ProcessSyncee(p, full);
        }
      case Closed =>
    }

    /** A new call: ilcbinit, then remember where the caller starts. */
    method Become(id: nat)
      requires Valid()
      modifies this, qt
      ensures Valid() && View() == InitialCb(Syncee, old(start)).(rstart := id)
    {
      state, next, recvd, rstart, window := Syncee, start + 1, 0, id, DEFAULT_WINDOW;
      unacked, outoforder, qtx := [], [], 1;
      forall i | 0 <= i < qt.Length {
        qt[i] := 0;
      }
      assert qt[..] == seq(NQT + 1, _ => 0);
    }

    /** One round of ilackproc for this end. */
    method Tick(t: Timer) returns (sent: seq<Packet>)
      requires Valid()
      modifies this, qt
      ensures Valid() && Out(View(), sent, []) == IlControl.Tick(old(View()), t)
    {
      sent := [];
      if state == Closed || state == Listening {
        return;
      }
      if t == GiveUp {
        state := Closed;
        return;
      }
      if state == Closing {
        sent := [Ctl(IlControl.Kind.Close, next, recvd, 0)];
      } else if state != Established {
        sent := [Ctl(Sync, start, recvd, 0)];
      } else if t == SendAck {
        sent := [Ctl(Ack, next, recvd, 0)];
      } else {
        var x := NextQt();
        sent := [Ctl(Query, next, recvd, x)];
      }
    }
  }
}
