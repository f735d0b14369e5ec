/** The IL control block: what each kick, packet, timer and close does to one
    end of a connection, which packets it sends and which messages it passes up. */
module IlControl {

  type Msg = seq<bv8>

  datatype State = Closed | Syncer | Syncee | Established | Listening | Closing

  datatype Kind = Sync | Data | DataQuery | Ack | Query | StateReply | Close

  datatype Packet = Packet(kind: Kind, id: nat, ack: nat, spec: nat, msg: Msg)

  const NQT := 8
  const DEFAULT_WINDOW := 20

  /** The fields that decide what is sent and passed up; timers are events. */
  datatype Cb = Cb(
    state: State,
    next: nat,
    recvd: nat,
    start: nat,
    rstart: nat,
    window: nat,
    unacked: seq<Packet>,
    outo: seq<Packet>,
    qt: seq<nat>,
    qtx: nat)

  predicate CbOk(c: Cb) {
    |c.qt| == NQT + 1 && 1 <= c.qtx <= NQT
  }

  /** Result of one step: new state, packets sent, messages passed up. */
  datatype Out = Out(cb: Cb, sent: seq<Packet>, up: seq<Msg>)

  function Quiet(c: Cb): Out {
    Out(c, [], [])
  }

  function Ctl(kind: Kind, id: nat, ack: nat, spec: nat): Packet {
    Packet(kind, id, ack, spec, [])
  }

  /** ilcbinit. */
  function InitialCb(state: State, start: nat): Cb {
    Cb(state, start + 1, 0, start, 0, DEFAULT_WINDOW, [], [], seq(NQT + 1, _ => 0), 1)
  }

  // ---------------------------------------------------------------- the queues

  /** ilackto: drop what the other side has. */
  function DropAcked(q: seq<Packet>, ackto: nat): seq<Packet> {
    if q == [] || ackto < q[0].id then q else DropAcked(q[1..], ackto)
  }

  function AckTo(c: Cb, ackto: nat): Cb {
    c.(unacked := DropAcked(c.unacked, ackto))
  }

  /** Keep the out of order list sorted; a duplicate is dropped. */
  function Insert(q: seq<Packet>, p: Packet): seq<Packet> {
    if q == [] then [p]
    else if p.id < q[0].id then [p] + q
    else if p.id == q[0].id then q
    else [q[0]] + Insert(q[1..], p)
  }

  /** iloutoforder. */
  function OutOfOrder(c: Cb, p: Packet): Cb {
    if p.id <= c.recvd || p.id > c.recvd + c.window then c
    else c.(outo := Insert(c.outo, p))
  }

  /** ilpullup's loop. */
  function PullLoop(c: Cb): Out
    decreases |c.outo|
  {
    if c.outo == [] then Quiet(c)
    else
      var p, rest := c.outo[0], c.outo[1..];
      if p.id <= c.recvd then PullLoop(c.(outo := rest))
      else if p.id != c.recvd + 1 then Quiet(c)
      else
        var o := PullLoop(c.(recvd := p.id, outo := rest));
        o.(up := [p.msg] + o.up)
  }

  function PullUp(c: Cb): Out {
    if c.state != Established then Quiet(c) else PullLoop(c)
  }

  /** ilnextqt: remember the highest packet sent under a fresh query number. */
  function NextQt(c: Cb): Cb
    requires CbOk(c) && c.next >= 1
  {
    var x := if c.qtx + 1 > NQT then 1 else c.qtx + 1;
    c.(qtx := x, qt := c.qt[x := c.next - 1][0 := c.next - 1])
  }

  /** ilrexmit. */
  function Rexmit(c: Cb): Out
    requires CbOk(c) && c.next >= 1
  {
    if c.unacked == [] then Quiet(c)
    else
      var d := NextQt(c);
      Out(d, [c.unacked[0].(kind := DataQuery, ack := c.recvd, spec := d.qtx)], [])
  }

  // ---------------------------------------------------------------- ilkick, ilclose

  function Kick(c: Cb, m: Msg): Out {
    if c.state == Closed || c.state == Listening || c.state == Closing then Quiet(c)
    else
      var p := Packet(Data, c.next, c.recvd, 0, m);
      Out(c.(next := c.next + 1, unacked := c.unacked + [p]), [p], [])
  }

  function LocalClose(c: Cb): Out {
    var d := c.(unacked := [], outo := []);
    match c.state
    case Syncer => Out(d.(state := Closing), [Ctl(Close, c.next, c.recvd, 0)], [])
    case Syncee => Out(d.(state := Closing), [Ctl(Close, c.next, c.recvd, 0)], [])
    case Established => Out(d.(state := Closing), [Ctl(Close, c.next, c.recvd, 0)], [])
    case Listening => Quiet(d.(state := Closed))
    case _ => Quiet(d)
  }

  // ---------------------------------------------------------------- _ilprocess

  function Hangup(c: Cb): Cb {
    c.(state := Closed)
  }

  /** Common part of data and dataquery. */
  function Receive(c: Cb, p: Packet): Out {
    PullUp(OutOfOrder(AckTo(c, p.ack), p))
  }

  /** Sorted, each id once, and all still ahead of recvd. */
  ghost predicate Ahead(q: seq<Packet>, recvd: nat) {
    && (forall i, j :: 0 <= i < j < |q| ==> q[i].id < q[j].id)
    && forall i :: 0 <= i < |q| ==> recvd < q[i].id
  }

  lemma {:induction false} InsertAhead(q: seq<Packet>, p: Packet, recvd: nat)
    requires Ahead(q, recvd) && recvd < p.id
    ensures Ahead(Insert(q, p), recvd)
    ensures Insert(q, p) != [] && Insert(q, p)[0].id == if q == [] || p.id < q[0].id then p.id else q[0].id
  {
    if q != [] && q[0].id < p.id {
      InsertAhead(q[1..], p, recvd);
    }
  }

  /** Passing messages up sends nothing and touches only recvd and the list, which
      stays sorted and ahead of recvd; one message goes up for every id that recvd
      moves on, until the next one wanted is missing. */
  lemma {:induction false} PullLoopKeeps(c: Cb)
    ensures var o := PullLoop(c); o.sent == [] && o.cb == c.(recvd := o.cb.recvd, outo := o.cb.outo)
    ensures var o := PullLoop(c);
      Ahead(c.outo, c.recvd) ==>
        && Ahead(o.cb.outo, o.cb.recvd + if o.cb.outo == [] then 0 else 1)
        && o.cb.recvd == c.recvd + |o.up|
    decreases |c.outo|
  {
    if c.outo != [] {
      var p, rest := c.outo[0], c.outo[1..];
      if p.id <= c.recvd {
        PullLoopKeeps(c.(outo := rest));
      } else if p.id == c.recvd + 1 {
        PullLoopKeeps(c.(recvd := p.id, outo := rest));
      }
    }
  }

  /** Accepting a message sends nothing and touches only the two lists and recvd; the
      list stays sorted and ahead of recvd. */
  lemma ReceiveKeeps(c: Cb, p: Packet)
    ensures var o := Receive(c, p);
      o.sent == [] && o.cb == c.(unacked := DropAcked(c.unacked, p.ack), recvd := o.cb.recvd, outo := o.cb.outo)
    ensures Ahead(c.outo, c.recvd) ==> Ahead(Receive(c, p).cb.outo, Receive(c, p).cb.recvd)
  {
    var d := OutOfOrder(AckTo(c, p.ack), p);
    if Ahead(c.outo, c.recvd) && p.id > c.recvd {
      InsertAhead(c.outo, p, c.recvd);
    }
    PullLoopKeeps(d);
  }

  function InSyncer(c: Cb, p: Packet): Out {
    match p.kind
    case Sync =>
      if p.ack != c.start then Quiet(Hangup(c))
      else
        var d := c.(recvd := p.id, rstart := p.id, state := Established);
        var o := PullUp(d);
        o.(sent := [Ctl(Ack, c.next, p.id, 0)])
    case Close => if p.ack == c.start then Quiet(Hangup(c)) else Quiet(c)
    case _ => Quiet(c)
  }

  function InSyncee(c: Cb, p: Packet, full: bool): Out
    requires CbOk(c) && c.next >= 1
  {
    match p.kind
    case Sync =>
      if p.id != c.rstart || p.ack != 0 then Quiet(Hangup(c))
      else Out(c.(recvd := p.id), [Ctl(Sync, c.start, p.id, 0)], [])
    case Ack => if p.ack == c.start then PullUp(c.(state := Established)) else Quiet(c)
    case Data => if p.ack == c.start then InEstablished(c.(state := Established), p, full) else Quiet(c)
    case Close => if p.ack == c.start then Quiet(Hangup(c)) else Quiet(c)
    case _ => Quiet(c)
  }

  function InEstablished(c: Cb, p: Packet, full: bool): Out
    requires CbOk(c) && c.next >= 1
  {
    match p.kind
    case Sync =>
      if p.id != c.rstart then Quiet(Hangup(c)) else Out(c, [Ctl(Ack, c.next, c.rstart, 0)], [])
    case Data => if full then Quiet(c) else Receive(c, p)
    case DataQuery =>
      var o := Receive(c, p);
      o.(sent := [Ctl(StateReply, o.cb.next, o.cb.recvd, p.spec)])
    case Ack => Quiet(AckTo(c, p.ack))
    case Query => Out(AckTo(c, p.ack), [Ctl(StateReply, c.next, c.recvd, p.spec)], [])
    case StateReply =>
      var d := AckTo(c, p.ack);
      var x := if p.spec > NQT then 0 else p.spec;
      if d.qt[x] > p.ack then Rexmit(d) else Quiet(d)
    case Close =>
      if p.ack < c.start || p.ack > c.next then Quiet(c)
      else Out(c.(recvd := p.id, state := Closing, unacked := [], outo := []), [Ctl(Close, c.next, p.id, 0)], [])
  }

  function InClosing(c: Cb, p: Packet): Out {
    if p.kind != Close then Quiet(c)
    else
      var d := c.(recvd := p.id);
      Out(if p.ack == c.next then Hangup(d) else d, [Ctl(Close, c.next, p.id, 0)], [])
  }

  /** A listener that hears a sync becomes a call of its own and processes it. */
  function InListening(c: Cb, p: Packet, full: bool): Out
    requires CbOk(c) && c.next >= 1
  {
    if p.kind != Sync then Quiet(c)
    else InSyncee(InitialCb(Syncee, c.start).(rstart := p.id), p, full)
  }

  function Process(c: Cb, p: Packet, full: bool): Out
    requires CbOk(c) && c.next >= 1
  {
    match c.state
    case Closed => Quiet(c)
    case Syncer => InSyncer(c, p)
    case Syncee => InSyncee(c, p, full)
    case Established => InEstablished(c, p, full)
    case Listening => InListening(c, p, full)
    case Closing => InClosing(c, p)
  }

  // ---------------------------------------------------------------- ilackproc

  /** What the timer process may do; when it does so is left open. */
  datatype Timer = SendAck | SendQuery | GiveUp

  function Tick(c: Cb, t: Timer): Out
    requires CbOk(c) && c.next >= 1
  {
    match c.state
    case Closed => Quiet(c)
    case Listening => Quiet(c)
    case Closing => if t == GiveUp then Quiet(Hangup(c)) else Out(c, [Ctl(Close, c.next, c.recvd, 0)], [])
    case Syncer => if t == GiveUp then Quiet(Hangup(c)) else Out(c, [Ctl(Sync, c.start, c.recvd, 0)], [])
    case Syncee => if t == GiveUp then Quiet(Hangup(c)) else Out(c, [Ctl(Sync, c.start, c.recvd, 0)], [])
    case Established =>
      match t
      case SendAck => Out(c, [Ctl(Ack, c.next, c.recvd, 0)], [])
      case SendQuery => Out(NextQt(c), [Ctl(Query, c.next, c.recvd, NextQt(c).qtx)], [])
      case GiveUp => Quiet(Hangup(c))
  }

  /** Everything that can happen at one end. */
  datatype Event = User(m: Msg) | Arrive(p: Packet, full: bool) | Timeout(t: Timer) | Hang

  function Step(c: Cb, e: Event): Out
    requires CbOk(c) && c.next >= 1
  {
    match e
    case User(m) => Kick(c, m)
    case Arrive(p, full) => Process(c, p, full)
    case Timeout(t) => Tick(c, t)
    case Hang => LocalClose(c)
  }
}
