/** Two IL ends and a network that loses, duplicates and reorders: what holds in
    every run. */
module IlProtocol {
  import opened IlControl

  predicate IsMessage(p: Packet) {
    p.kind == Data || p.kind == DataQuery
  }

  /** p carries the message that its sender numbered p.id. */
  predicate Genuine(p: Packet, start: nat, sent: seq<Msg>) {
    start < p.id <= start + |sent| && p.msg == sent[p.id - start - 1]
  }

  /** The connection has not begun to close at this end. */
  predicate Open(c: Cb) {
    c.state != Closing && c.state != Closed
  }

  /** The unacked list is the tail of what was sent, in order, up to next - 1. */
  ghost predicate UnackedTail(c: Cb, sent: seq<Msg>) {
    && c.next == c.start + 1 + |sent|
    && |c.unacked| <= |sent|
    && forall i :: 0 <= i < |c.unacked| ==>
         && c.unacked[i].kind == Data
         && c.unacked[i].id == c.next - |c.unacked| + i
         && Genuine(c.unacked[i], c.start, sent)
  }

  /** What a packet from an end in state c may say. */
  ghost predicate Honest(p: Packet, c: Cb, sent: seq<Msg>) {
    && (IsMessage(p) ==> Genuine(p, c.start, sent))
    && (p.kind == Sync ==> p.id == c.start)
    && (p.kind == Close ==> !Open(c))
  }

  ghost predicate AllHonest(net: set<Packet>, c: Cb, sent: seq<Msg>) {
    forall p :: p in net ==> Honest(p, c, sent)
  }

  /** The out of order list: sorted, genuine, inside the window, and its first
      message is not the next one. */
  ghost predicate Waiting(q: seq<Packet>, recvd: nat, window: nat, start: nat, sent: seq<Msg>) {
    && (forall i, j :: 0 <= i < j < |q| ==> q[i].id < q[j].id)
    && (forall i :: 0 <= i < |q| ==> recvd < q[i].id <= recvd + window && Genuine(q[i], start, sent))
  }

  ghost predicate NoneReady(q: seq<Packet>, recvd: nat) {
    q == [] || q[0].id != recvd + 1
  }

  /** What the receiving end r knows of the sender s, and what it has passed up. */
  ghost predicate Received(r: Cb, s: Cb, sent: seq<Msg>, got: seq<Msg>) {
    && got <= sent && r.window == DEFAULT_WINDOW
    && (r.state == Listening || r.state == Syncer ==> got == [] && r.outo == [] && r.recvd == 0)
    && (r.state == Syncee ==> got == [] && r.outo == [] && r.rstart == s.start && r.recvd == s.start)
    && (r.state == Established ==>
          && r.rstart == s.start && r.recvd == s.start + |got|
          && Waiting(r.outo, r.recvd, r.window, s.start, sent) && NoneReady(r.outo, r.recvd))
  }

  /** While s is open, r never claims more than it passed up, so s still holds
      everything r lacks. */
  ghost predicate Covered(s: Cb, r: Cb, back: set<Packet>, sent: seq<Msg>, got: seq<Msg>) {
    Open(s) ==>
      && r.recvd <= s.start + |got|
      && (forall p :: p in back ==> p.ack <= s.start + |got|)
      && |sent| - |got| <= |s.unacked|
  }

  /** One direction of the connection: s sends over fwd, r answers over back. */
  ghost predicate Direction(s: Cb, r: Cb, fwd: set<Packet>, back: set<Packet>, sent: seq<Msg>, got: seq<Msg>) {
    && Sender(s, sent)
    && AllHonest(fwd, s, sent)
    && Received(r, s, sent, got)
    && Covered(s, r, back, sent, got)
  }

  // ---------------------------------------------------------------- queue lemmas

  /** Acknowledged or not, the list stays the tail of what was sent, and an
      honest acknowledgement of g messages removes at most those. */
  lemma {:induction false} DropAckedTail(c: Cb, q: seq<Packet>, ackto: nat, sent: seq<Msg>, g: nat)
    requires UnackedTail(c.(unacked := q), sent)
    ensures UnackedTail(c.(unacked := DropAcked(q, ackto)), sent)
    ensures ackto <= c.start + g && |sent| - g <= |q| ==> |sent| - g <= |DropAcked(q, ackto)|
    decreases |q|
  {
    if q != [] && q[0].id <= ackto {
      DropAckedTail(c, q[1..], ackto, sent, g);
    }
  }

  lemma {:induction false} InsertWaiting(q: seq<Packet>, p: Packet, recvd: nat, window: nat, start: nat, sent: seq<Msg>)
    requires Waiting(q, recvd, window, start, sent)
    requires recvd < p.id <= recvd + window && Genuine(p, start, sent)
    ensures Waiting(Insert(q, p), recvd, window, start, sent)
    ensures Insert(q, p) != [] && Insert(q, p)[0].id == if q == [] || p.id < q[0].id then p.id else q[0].id
  {
    if q != [] && q[0].id < p.id {
      InsertWaiting(q[1..], p, recvd, window, start, sent);
    }
  }

  /** Messages count + 1 to n of the sender. */
  lemma {:induction false} PullLoopDelivers(c: Cb, start: nat, sent: seq<Msg>, got: seq<Msg>)
    requires got <= sent && c.recvd == start + |got|
    requires Waiting(c.outo, c.recvd, c.window, start, sent)
    ensures var o := PullLoop(c);
      && o.sent == [] && got + o.up <= sent
      && o.cb == c.(recvd := o.cb.recvd, outo := o.cb.outo)
      && o.cb.recvd == start + |got + o.up|
      && Waiting(o.cb.outo, o.cb.recvd, c.window, start, sent) && NoneReady(o.cb.outo, o.cb.recvd)
      && (!NoneReady(c.outo, c.recvd) ==> o.up != [])
    decreases |c.outo|
  {
    if c.outo != [] && c.outo[0].id == c.recvd + 1 {
      var p, rest := c.outo[0], c.outo[1..];
      var d, g := c.(recvd := p.id, outo := rest), got + [p.msg];
      assert g <= sent;
      PullLoopDelivers(d, start, sent, g);
      assert g + PullLoop(d).up == got + PullLoop(c).up;
    }
  }

  // ---------------------------------------------------------------- one end at a time

  /** The message an event adds to the sender's stream. */
  function Sending(c: Cb, e: Event): seq<Msg> {
    if e.User? && Open(c) && c.state != Listening then [e.m] else []
  }

  ghost predicate Arrives(e: Event, net: set<Packet>) {
    e.Arrive? ==> e.p in net
  }

  function AsSet(q: seq<Packet>): set<Packet> {
    set p | p in q
  }

  // ---------------------------------------------------------------- as sender

  /** What a step may do to the sending half of an end, when the other side is
      known to have g messages. */
  ghost predicate SendingKept(c: Cb, o: Out, sent: seq<Msg>, sent': seq<Msg>, g: nat) {
    && CbOk(o.cb) && o.cb.start == c.start
    && (Open(o.cb) ==> Open(c)) && (o.cb.state == Listening ==> c.state == Listening)
    && UnackedTail(o.cb, sent')
    && (forall p :: p in o.sent ==> Honest(p, o.cb, sent'))
    && (Open(o.cb) && |sent| - g <= |c.unacked| ==> |sent'| - g <= |o.cb.unacked|)
  }

  /** An end that is still listening has sent nothing. */
  ghost predicate Sender(c: Cb, sent: seq<Msg>) {
    CbOk(c) && UnackedTail(c, sent) && (c.state == Listening ==> sent == [])
  }

  /** A retransmission repeats the oldest unacknowledged message. */
  lemma RexmitSends(c: Cb, sent: seq<Msg>)
    requires CbOk(c) && c.next >= 1 && UnackedTail(c, sent)
    ensures var o := Rexmit(c);
      && CbOk(o.cb) && o.cb == c.(qt := o.cb.qt, qtx := o.cb.qtx) && UnackedTail(o.cb, sent)
      && forall p :: p in o.sent ==> p.kind == DataQuery && Genuine(p, c.start, sent)
  {}

  lemma ReceiveSends(c: Cb, p: Packet, sent: seq<Msg>, g: nat)
    requires CbOk(c) && UnackedTail(c, sent) && Open(c) && p.ack <= c.start + g
    ensures SendingKept(c, Receive(c, p), sent, sent, g)
    ensures SendingKept(c, Quiet(AckTo(c, p.ack)), sent, sent, g)
  {
    ReceiveKeeps(c, p);
    DropAckedTail(c, c.unacked, p.ack, sent, g);
  }

  lemma StateReplySends(c: Cb, p: Packet, sent: seq<Msg>, g: nat)
    requires CbOk(c) && c.next >= 1 && UnackedTail(c, sent) && Open(c) && p.ack <= c.start + g
    requires p.kind == StateReply
    ensures SendingKept(c, InEstablished(c, p, false), sent, sent, g)
  {
    var d := AckTo(c, p.ack);
    ReceiveSends(c, p, sent, g);
    RexmitSends(d, sent);
    var o := InEstablished(c, p, false);
    assert o == Rexmit(d) || o == Quiet(d);
  }

  /** Answers that carry no message change nothing for the sending half. */
  lemma Answers(c: Cb, o: Out, d: Cb, sent: seq<Msg>, g: nat)
    requires SendingKept(c, Quiet(d), sent, sent, g) && Open(d)
    requires o.cb == d.(recvd := o.cb.recvd, rstart := o.cb.rstart, outo := o.cb.outo)
    requires forall p :: p in o.sent ==> !IsMessage(p) && p.kind != Sync && p.kind != Close
    ensures SendingKept(c, o, sent, sent, g)
  {}

  lemma MessageSends(c: Cb, p: Packet, full: bool, sent: seq<Msg>, g: nat)
    requires CbOk(c) && c.next >= 1 && UnackedTail(c, sent) && Open(c) && p.ack <= c.start + g && IsMessage(p)
    ensures SendingKept(c, InEstablished(c, p, full), sent, sent, g)
  {
    ReceiveSends(c, p, sent, g);
    ReceiveKeeps(c, p);
    var o := InEstablished(c, p, full);
    if p.kind == DataQuery || !full {
      Answers(c, o, AckTo(c, p.ack), sent, g);
    }
  }

  lemma OtherSends(c: Cb, p: Packet, full: bool, sent: seq<Msg>, g: nat)
    requires CbOk(c) && c.next >= 1 && UnackedTail(c, sent) && Open(c) && p.ack <= c.start + g
    requires !IsMessage(p) && p.kind != StateReply
    ensures SendingKept(c, InEstablished(c, p, full), sent, sent, g)
  {
    var o := InEstablished(c, p, full);
    if p.kind == Ack || p.kind == Query {
      ReceiveSends(c, p, sent, g);
      Answers(c, o, AckTo(c, p.ack), sent, g);
    } else if p.kind == Sync && p.id == c.rstart {
      Answers(c, o, c, sent, g);
    }
  }

  lemma EstablishedSends(c: Cb, p: Packet, full: bool, sent: seq<Msg>, g: nat)
    requires CbOk(c) && c.next >= 1 && UnackedTail(c, sent) && Open(c) && p.ack <= c.start + g
    ensures SendingKept(c, InEstablished(c, p, full), sent, sent, g)
  {
    if p.kind == StateReply {
      StateReplySends(c, p, sent, g);
      assert InEstablished(c, p, full) == InEstablished(c, p, false);
    } else if IsMessage(p) {
      MessageSends(c, p, full, sent, g);
    } else {
      OtherSends(c, p, full, sent, g);
    }
  }

  lemma SynceeSends(c: Cb, p: Packet, full: bool, sent: seq<Msg>, g: nat)
    requires CbOk(c) && c.next >= 1 && UnackedTail(c, sent) && c.state == Syncee
    requires p.ack <= c.start + g
    ensures SendingKept(c, InSyncee(c, p, full), sent, sent, g)
  {
    var d := c.(state := Established);
    if p.kind == Data && p.ack == c.start {
      EstablishedSends(d, p, full, sent, g);
    } else if p.kind == Ack && p.ack == c.start {
      PullLoopKeeps(d);
      Answers(d, PullUp(d), d, sent, g);
    }
  }

  lemma SyncerSends(c: Cb, p: Packet, sent: seq<Msg>, g: nat)
    requires Sender(c, sent) && c.state == Syncer
    ensures SendingKept(c, InSyncer(c, p), sent, sent, g)
  {
    var d := c.(recvd := p.id, rstart := p.id, state := Established);
    PullLoopKeeps(d);
    if p.kind == Sync && p.ack == c.start {
      Answers(c, InSyncer(c, p), d, sent, g);
    }
  }

  lemma ClosingSends(c: Cb, p: Packet, sent: seq<Msg>, g: nat)
    requires Sender(c, sent) && c.state == Closing
    ensures SendingKept(c, InClosing(c, p), sent, sent, g)
  {}

  lemma ListeningSends(c: Cb, p: Packet, full: bool, sent: seq<Msg>, g: nat)
    requires Sender(c, sent) && c.state == Listening && p.ack <= c.start + g
    ensures SendingKept(c, InListening(c, p, full), sent, sent, g)
  {
    SynceeSends(InitialCb(Syncee, c.start).(rstart := p.id), p, full, sent, g);
  }

  lemma ProcessSends(c: Cb, p: Packet, full: bool, sent: seq<Msg>, g: nat)
    requires Sender(c, sent) && (Open(c) ==> p.ack <= c.start + g)
    ensures SendingKept(c, Process(c, p, full), sent, sent, g)
  {
    match c.state
    case Closed =>
    case Syncer => SyncerSends(c, p, sent, g);
    case Syncee => SynceeSends(c, p, full, sent, g);
    case Established => EstablishedSends(c, p, full, sent, g);
    case Listening => ListeningSends(c, p, full, sent, g);
    case Closing => ClosingSends(c, p, sent, g);
  }

  lemma KickSends(c: Cb, m: Msg, sent: seq<Msg>, g: nat)
    requires Sender(c, sent)
    ensures SendingKept(c, Kick(c, m), sent, sent + Sending(c, User(m)), g)
  {}

  lemma TickSends(c: Cb, t: Timer, sent: seq<Msg>, g: nat)
    requires Sender(c, sent)
    ensures SendingKept(c, Tick(c, t), sent, sent, g)
  {}

  lemma CloseSends(c: Cb, sent: seq<Msg>, g: nat)
    requires Sender(c, sent)
    ensures SendingKept(c, LocalClose(c), sent, sent, g)
  {}

  /** Any step keeps the sending half in order. */
  lemma StepSends(c: Cb, e: Event, sent: seq<Msg>, g: nat)
    requires Sender(c, sent) && (Open(c) && e.Arrive? ==> e.p.ack <= c.start + g)
    ensures SendingKept(c, Step(c, e), sent, sent + Sending(c, e), g)
    ensures Sender(Step(c, e).cb, sent + Sending(c, e))
  {
    assert sent + [] == sent;
    match e
    case User(m) => KickSends(c, m, sent, g);
    case Arrive(p, full) => ProcessSends(c, p, full, sent, g);
    case Timeout(t) => TickSends(c, t, sent, g);
    case Hang => CloseSends(c, sent, g);
  }

  // ---------------------------------------------------------------- as receiver

  /** r claims no more than the messages it passed up. */
  ghost predicate Claims(s: Cb, o: Out, got: seq<Msg>) {
    o.cb.recvd <= s.start + |got| && forall p :: p in o.sent ==> p.ack <= s.start + |got|
  }

  /** What a step may do to the receiving half of an end. */
  ghost predicate ReceivingKept(s: Cb, r: Cb, o: Out, sent: seq<Msg>, got: seq<Msg>) {
    && Received(o.cb, s, sent, got + o.up)
    && (Open(s) && r.recvd <= s.start + |got| ==> Claims(s, o, got + o.up))
  }

  lemma PullUpReceives(s: Cb, r: Cb, sent: seq<Msg>, got: seq<Msg>)
    requires r.state == Established && r.rstart == s.start && r.recvd == s.start + |got| && got <= sent
    requires r.window == DEFAULT_WINDOW
    requires Waiting(r.outo, r.recvd, r.window, s.start, sent)
    ensures ReceivingKept(s, r, PullUp(r), sent, got) && PullUp(r).sent == [] && PullUp(r).cb.state == Established
    ensures PullUp(r).cb.recvd == s.start + |got + PullUp(r).up|
    ensures !NoneReady(r.outo, r.recvd) ==> PullUp(r).up != []
  {
    PullLoopDelivers(r, s.start, sent, got);
  }

  lemma ReceiveReceives(s: Cb, r: Cb, p: Packet, sent: seq<Msg>, got: seq<Msg>)
    requires r.state == Established && Received(r, s, sent, got) && Genuine(p, s.start, sent)
    ensures var o := Receive(r, p);
      && ReceivingKept(s, r, o, sent, got) && o.sent == [] && o.cb.state == Established
      && o.cb.recvd == s.start + |got + o.up|
    ensures p.id == r.recvd + 1 ==> Receive(r, p).up != []
  {
    var c := AckTo(r, p.ack);
    if r.recvd < p.id <= r.recvd + r.window {
      InsertWaiting(r.outo, p, r.recvd, r.window, s.start, sent);
    }
    PullUpReceives(s, OutOfOrder(c, p), sent, got);
  }

  /** A step that passes nothing up and goes on claiming what it did, or stops. */
  lemma NothingTaken(s: Cb, r: Cb, o: Out, sent: seq<Msg>, got: seq<Msg>)
    requires Received(r, s, sent, got) && o.up == [] && o.cb.window == r.window && o.cb.recvd == r.recvd
    requires !Open(o.cb) || (o.cb.state == r.state && o.cb.rstart == r.rstart && o.cb.outo == r.outo)
    requires forall q :: q in o.sent ==> q.ack == r.recvd || (r.state == Established && q.ack == r.rstart)
    ensures ReceivingKept(s, r, o, sent, got)
  {
    assert got + [] == got;
  }

  /** When the other end closes, what is claimed no longer matters. */
  lemma CloseTaken(s: Cb, r: Cb, o: Out, sent: seq<Msg>, got: seq<Msg>)
    requires Received(r, s, sent, got) && o.up == [] && o.cb.window == r.window && !Open(s) && !Open(o.cb)
    ensures ReceivingKept(s, r, o, sent, got)
  {
    assert got + [] == got;
  }

  lemma EstablishedReceives(s: Cb, r: Cb, p: Packet, full: bool, sent: seq<Msg>, got: seq<Msg>)
    requires CbOk(r) && r.next >= 1 && r.state == Established && Received(r, s, sent, got) && Honest(p, s, sent)
    ensures ReceivingKept(s, r, InEstablished(r, p, full), sent, got)
  {
    var o := InEstablished(r, p, full);
    if IsMessage(p) {
      MessageReceived(s, r, p, full, sent, got);
    } else if p.kind == Close && r.start <= p.ack <= r.next {
      CloseTaken(s, r, o, sent, got);
    } else {
      if p.kind == StateReply {
        StateReplyReceives(r, p);
      }
      NothingTaken(s, r, o, sent, got);
    }
  }

  lemma MessageReceived(s: Cb, r: Cb, p: Packet, full: bool, sent: seq<Msg>, got: seq<Msg>)
    requires CbOk(r) && r.next >= 1 && r.state == Established && Received(r, s, sent, got) && Honest(p, s, sent)
    requires IsMessage(p)
    ensures ReceivingKept(s, r, InEstablished(r, p, full), sent, got)
  {
    assert got + [] == got;
    ReceiveReceives(s, r, p, sent, got);
  }

  lemma StateReplyReceives(r: Cb, p: Packet)
    requires CbOk(r) && r.next >= 1 && p.kind == StateReply
    ensures var o := InEstablished(r, p, false);
      && o.up == [] && o.cb == r.(unacked := o.cb.unacked, qt := o.cb.qt, qtx := o.cb.qtx)
      && forall q :: q in o.sent ==> q.ack == r.recvd
  {}

  lemma SynceeReceives(s: Cb, r: Cb, p: Packet, full: bool, sent: seq<Msg>, got: seq<Msg>)
    requires CbOk(r) && r.next >= 1 && r.state == Syncee && Honest(p, s, sent)
    requires got == [] && r.outo == [] && r.rstart == s.start && r.window == DEFAULT_WINDOW
    requires r.recvd == s.start || (p.kind == Sync && r.recvd == 0)
    ensures ReceivingKept(s, r, InSyncee(r, p, full), sent, got)
  {
    assert got + [] == got;
    var c := r.(state := Established);
    if p.kind == Ack && p.ack == r.start {
      PullUpReceives(s, c, sent, got);
    } else if p.kind == Data && p.ack == r.start {
      EstablishedReceives(s, c, p, full, sent, got);
    }
  }

  lemma ListeningReceives(s: Cb, r: Cb, p: Packet, full: bool, sent: seq<Msg>, got: seq<Msg>)
    requires CbOk(r) && r.next >= 1 && r.state == Listening && Received(r, s, sent, got) && Honest(p, s, sent)
    ensures ReceivingKept(s, r, InListening(r, p, full), sent, got)
  {
    assert got + [] == got;
    if p.kind == Sync {
      SynceeReceives(s, InitialCb(Syncee, r.start).(rstart := p.id), p, full, sent, got);
    }
  }

  lemma SyncerReceives(s: Cb, r: Cb, p: Packet, sent: seq<Msg>, got: seq<Msg>)
    requires r.state == Syncer && Received(r, s, sent, got) && Honest(p, s, sent)
    ensures ReceivingKept(s, r, InSyncer(r, p), sent, got)
  {
    assert got + [] == got;
    if p.kind == Sync && p.ack == r.start {
      PullUpReceives(s, r.(recvd := p.id, rstart := p.id, state := Established), sent, got);
    }
  }

  lemma ClosingReceives(s: Cb, r: Cb, p: Packet, sent: seq<Msg>, got: seq<Msg>)
    requires r.state == Closing && Received(r, s, sent, got) && Honest(p, s, sent)
    ensures ReceivingKept(s, r, InClosing(r, p), sent, got)
  {
    if p.kind == Close {
      CloseTaken(s, r, InClosing(r, p), sent, got);
    } else {
      NothingTaken(s, r, InClosing(r, p), sent, got);
    }
  }

  lemma ProcessReceives(s: Cb, r: Cb, p: Packet, full: bool, sent: seq<Msg>, got: seq<Msg>)
    requires CbOk(r) && r.next >= 1 && Received(r, s, sent, got) && Honest(p, s, sent)
    ensures ReceivingKept(s, r, Process(r, p, full), sent, got)
  {
    match r.state
    case Closed => NothingTaken(s, r, Quiet(r), sent, got);
    case Syncer => SyncerReceives(s, r, p, sent, got);
    case Syncee => SynceeReceives(s, r, p, full, sent, got);
    case Established => EstablishedReceives(s, r, p, full, sent, got);
    case Listening => ListeningReceives(s, r, p, full, sent, got);
    case Closing => ClosingReceives(s, r, p, sent, got);
  }

  /** Any step keeps the receiving half honest about the other end's stream. */
  lemma StepReceives(s: Cb, r: Cb, e: Event, sent: seq<Msg>, got: seq<Msg>)
    requires CbOk(r) && r.next >= 1 && Received(r, s, sent, got)
    requires e.Arrive? ==> Honest(e.p, s, sent)
    ensures ReceivingKept(s, r, Step(r, e), sent, got)
  {
    if e.Arrive? {
      ProcessReceives(s, r, e.p, e.full, sent, got);
    } else {
      NothingTaken(s, r, Step(r, e), sent, got);
    }
  }

  // ---------------------------------------------------------------- both directions

  /** When the sending end moves. */
  lemma SenderMoves(s: Cb, r: Cb, e: Event, fwd: set<Packet>, back: set<Packet>, sent: seq<Msg>, got: seq<Msg>)
    requires Direction(s, r, fwd, back, sent, got) && Arrives(e, back)
    ensures var o := Step(s, e);
      Direction(o.cb, r, fwd + AsSet(o.sent), back, sent + Sending(s, e), got)
  {
    StepSends(s, e, sent, |got|);
  }

  /** When the receiving end moves. */
  lemma ReceiverMoves(s: Cb, r: Cb, e: Event, fwd: set<Packet>, back: set<Packet>, sent: seq<Msg>, got: seq<Msg>)
    requires Direction(s, r, fwd, back, sent, got) && Arrives(e, fwd)
    requires CbOk(r) && r.next >= 1
    ensures var o := Step(r, e);
      Direction(s, o.cb, fwd, back + AsSet(o.sent), sent, got + o.up)
  {
    StepReceives(s, r, e, sent, got);
  }

  /** A connection: two ends, every packet ever sent each way, and the streams
      of messages handed in and passed up. A packet in the network may be
      delivered at any time, any number of times, or never. */
  datatype Link = Link(a: Cb, b: Cb, ab: set<Packet>, ba: set<Packet>,
                       sentA: seq<Msg>, sentB: seq<Msg>, gotA: seq<Msg>, gotB: seq<Msg>)

  ghost predicate Inv(x: Link) {
    && Direction(x.a, x.b, x.ab, x.ba, x.sentA, x.gotB)
    && Direction(x.b, x.a, x.ba, x.ab, x.sentB, x.gotA)
  }

  /** A calls and B listens. */
  ghost predicate Init(x: Link) {
    && x.a == InitialCb(Syncer, x.a.start) && x.b == InitialCb(Listening, x.b.start)
    && x.ab == {Ctl(Sync, x.a.start, 0, 0)} && x.ba == {}
    && x.sentA == [] && x.sentB == [] && x.gotA == [] && x.gotB == []
  }

  function AMoves(x: Link, e: Event): Link
    requires CbOk(x.a) && x.a.next >= 1
  {
    var o := Step(x.a, e);
    x.(a := o.cb, ab := x.ab + AsSet(o.sent), sentA := x.sentA + Sending(x.a, e), gotA := x.gotA + o.up)
  }

  function BMoves(x: Link, e: Event): Link
    requires CbOk(x.b) && x.b.next >= 1
  {
    var o := Step(x.b, e);
    x.(b := o.cb, ba := x.ba + AsSet(o.sent), sentB := x.sentB + Sending(x.b, e), gotB := x.gotB + o.up)
  }

  /** One step of the connection. */
  ghost predicate Next(x: Link, y: Link) {
    && CbOk(x.a) && x.a.next >= 1 && CbOk(x.b) && x.b.next >= 1
    && ((exists e :: Arrives(e, x.ba) && y == AMoves(x, e)) || (exists e :: Arrives(e, x.ab) && y == BMoves(x, e)))
  }

  lemma InitInv(x: Link)
    requires Init(x)
    ensures Inv(x)
  {}

  lemma NextInv(x: Link, y: Link)
    requires Inv(x) && Next(x, y)
    ensures Inv(y)
  {
    if e :| Arrives(e, x.ba) && y == AMoves(x, e) {
      SenderMoves(x.a, x.b, e, x.ab, x.ba, x.sentA, x.gotB);
      ReceiverMoves(x.b, x.a, e, x.ba, x.ab, x.sentB, x.gotA);
    } else {
      var e :| Arrives(e, x.ab) && y == BMoves(x, e);
      SenderMoves(x.b, x.a, e, x.ba, x.ab, x.sentB, x.gotA);
      ReceiverMoves(x.a, x.b, e, x.ab, x.ba, x.sentA, x.gotB);
    }
  }

  ghost predicate IsRun(run: seq<Link>) {
    && run != [] && Init(run[0])
    && forall i :: 0 <= i < |run| - 1 ==> Next(run[i], run[i + 1])
  }

  lemma {:induction false} RunInv(run: seq<Link>)
    requires IsRun(run)
    ensures Inv(run[|run| - 1])
  {
    if |run| == 1 {
      InitInv(run[0]);
    } else {
      RunFront(run);
      RunInv(run[..|run| - 1]);
      NextInv(run[|run| - 2], run[|run| - 1]);
    }
  }

  lemma RunFront(run: seq<Link>)
    requires IsRun(run) && |run| > 1
    ensures IsRun(run[..|run| - 1]) && Next(run[|run| - 2], run[|run| - 1])
  {
    var front := run[..|run| - 1];
    forall i | 0 <= i < |front| - 1 ensures Next(front[i], front[i + 1]) {
      assert Next(run[i], run[i + 1]);
    }
    assert Next(run[|run| - 2], run[|run| - 2 + 1]);
  }

  /** In every run each end has passed up a prefix of what the other end was
      handed: in order, each once, nothing invented; and while it is established
      exactly the messages numbered rstart + 1 to recvd. */
  lemma EndToEnd(run: seq<Link>)
    requires IsRun(run)
    ensures var x := run[|run| - 1];
      && x.gotB <= x.sentA && x.gotA <= x.sentB
      && (x.b.state == Established ==> x.b.rstart == x.a.start && |x.gotB| == x.b.recvd - x.b.rstart)
      && (x.a.state == Established ==> x.a.rstart == x.b.start && |x.gotA| == x.a.recvd - x.a.rstart)
  {
    RunInv(run);
  }

  /** The sender holds message number start + 1 + i, for every i the other end
      has not passed up. */
  ghost predicate Holds(c: Cb, sent: seq<Msg>, got: seq<Msg>) {
    && c.next == c.start + 1 + |sent| && |c.unacked| <= |sent|
    && forall i :: |got| <= i < |sent| ==>
         var k := i - (|sent| - |c.unacked|);
         0 <= k < |c.unacked| && c.unacked[k].id == c.start + 1 + i && c.unacked[k].msg == sent[i]
  }

  lemma DirectionHolds(s: Cb, r: Cb, fwd: set<Packet>, back: set<Packet>, sent: seq<Msg>, got: seq<Msg>)
    requires Direction(s, r, fwd, back, sent, got) && Open(s)
    ensures Holds(s, sent, got)
  {
    forall i | |got| <= i < |sent|
      ensures var k := i - (|sent| - |s.unacked|);
        0 <= k < |s.unacked| && s.unacked[k].id == s.start + 1 + i && s.unacked[k].msg == sent[i]
    {
      var k := i - (|sent| - |s.unacked|);
      assert s.unacked[k].id == s.next - |s.unacked| + k && Genuine(s.unacked[k], s.start, sent);
    }
  }

  /** In every run, an end that has not begun to close still holds every message
      the other end has not passed up, and no acknowledgement in flight to it
      exceeds what was passed up. */
  lemma NothingLost(run: seq<Link>)
    requires IsRun(run)
    ensures var x := run[|run| - 1];
      && (Open(x.a) ==> Holds(x.a, x.sentA, x.gotB) && forall p :: p in x.ba ==> p.ack <= x.a.start + |x.gotB|)
      && (Open(x.b) ==> Holds(x.b, x.sentB, x.gotA) && forall p :: p in x.ab ==> p.ack <= x.b.start + |x.gotA|)
  {
    RunInv(run);
    var x := run[|run| - 1];
    if Open(x.a) { DirectionHolds(x.a, x.b, x.ab, x.ba, x.sentA, x.gotB); }
    if Open(x.b) { DirectionHolds(x.b, x.a, x.ba, x.ab, x.sentB, x.gotA); }
  }

  /** The receive window bounds the out of order list: at most 19 messages wait,
      all of them ahead of the next one wanted. */
  lemma WindowBoundsWaiting(run: seq<Link>)
    requires IsRun(run) && run[|run| - 1].b.state == Established
    ensures var b := run[|run| - 1].b;
      && |b.outo| < DEFAULT_WINDOW
      && forall i :: 0 <= i < |b.outo| ==> b.recvd + 1 < b.outo[i].id <= b.recvd + DEFAULT_WINDOW
  {
    RunInv(run);
    var b := run[|run| - 1].b;
    IdsGrow(b.outo, b.recvd, |b.outo|);
    if b.outo != [] {
      assert b.outo[|b.outo| - 1].id <= b.recvd + DEFAULT_WINDOW;
    }
  }

  lemma {:induction false} IdsGrow(q: seq<Packet>, recvd: nat, n: nat)
    requires n <= |q| && NoneReady(q, recvd)
    requires forall i, j :: 0 <= i < j < |q| ==> q[i].id < q[j].id
    requires forall i :: 0 <= i < |q| ==> recvd < q[i].id
    ensures forall i :: 0 <= i < n ==> q[i].id >= recvd + 2 + i
  {
    if n > 0 {
      IdsGrow(q, recvd, n - 1);
      assert n > 1 ==> q[n - 2].id < q[n - 1].id;
      assert recvd < q[n - 1].id;
    }
  }

  // ---------------------------------------------------------------- recovery

  /** Acknowledging exactly g messages leaves exactly the others. */
  lemma {:induction false} DropAckedExact(c: Cb, q: seq<Packet>, g: nat, sent: seq<Msg>)
    requires UnackedTail(c.(unacked := q), sent) && g <= |sent| && |sent| - g <= |q|
    ensures |DropAcked(q, c.start + g)| == |sent| - g
    decreases |q|
  {
    if |sent| - g < |q| {
      DropAckedExact(c, q[1..], g, sent);
    }
  }

  /** A state reply that claims g messages makes the sender resend message g + 1. */
  lemma ReplyResends(c: Cb, p: Packet, sent: seq<Msg>, g: nat) returns (d: Packet)
    requires Sender(c, sent) && g < |sent| && |sent| - g <= |c.unacked|
    requires p.kind == StateReply && p.ack == c.start + g && 1 <= p.spec <= NQT && c.qt[p.spec] == c.start + |sent|
    ensures var o := InEstablished(c, p, false);
      o.sent == [d] && o.up == [] && o.cb.state == c.state && o.cb.start == c.start
    ensures d.kind == DataQuery && d.id == c.start + g + 1 && Genuine(d, c.start, sent)
  {
    DropAckedExact(c, c.unacked, g, sent);
    DropAckedTail(c, c.unacked, p.ack, sent, g);
    var e := AckTo(c, p.ack);
    assert e.unacked[0].id == c.start + g + 1 && Genuine(e.unacked[0], c.start, sent);
    d := e.unacked[0].(kind := DataQuery, ack := c.recvd, spec := NextQt(e).qtx);
    assert InEstablished(c, p, false) == Rexmit(e);
  }

  /** However many messages were lost, one query round trip recovers: A's timer
      sends a query, B answers with its state, A resends the first message B
      lacks, and B passes at least that one up. */
  lemma QueryRecovers(x: Link) returns (x1: Link, x2: Link, x3: Link, x4: Link)
    requires Inv(x) && x.a.state == Established && x.b.state == Established && |x.gotB| < |x.sentA|
    ensures Next(x, x1) && Next(x1, x2) && Next(x2, x3) && Next(x3, x4)
    ensures x4.sentA == x.sentA && x.gotB < x4.gotB
  {
    var q := RecoverQuery(x);
    x1 := AMoves(x, Timeout(SendQuery));
    NextInv(x, x1);
    var p := RecoverReply(x1, q);
    x2 := BMoves(x1, Arrive(q, false));
    NextInv(x1, x2);
    var d := RecoverResend(x2, p);
    x3 := AMoves(x2, Arrive(p, false));
    NextInv(x2, x3);
    x4 := BMoves(x3, Arrive(d, false));
    RecoverDelivery(x3, d);
  }

  /** The query names the highest message sent so far. */
  lemma RecoverQuery(x: Link) returns (q: Packet)
    requires Inv(x) && x.a.state == Established
    ensures q.kind == Query && 1 <= q.spec <= NQT && q in AMoves(x, Timeout(SendQuery)).ab
    ensures var y := AMoves(x, Timeout(SendQuery));
      && Next(x, y) && y.a.state == Established && y.a.qt[q.spec] == y.a.start + |y.sentA|
      && y.b == x.b && y.sentA == x.sentA && y.gotB == x.gotB
  {
    q := Ctl(Query, x.a.next, x.a.recvd, NextQt(x.a).qtx);
    assert Step(x.a, Timeout(SendQuery)).sent == [q];
    assert x.sentA + [] == x.sentA;
  }

  lemma RecoverReply(x: Link, q: Packet) returns (p: Packet)
    requires Inv(x) && x.b.state == Established && q.kind == Query && q in x.ab
    ensures p.kind == StateReply && p.ack == x.a.start + |x.gotB|
    ensures p.spec == q.spec && p in BMoves(x, Arrive(q, false)).ba
    ensures var y := BMoves(x, Arrive(q, false));
      && Next(x, y) && y.a == x.a && y.sentA == x.sentA && y.gotB == x.gotB && y.b.state == Established
  {
    p := Ctl(StateReply, x.b.next, x.b.recvd, q.spec);
    assert Step(x.b, Arrive(q, false)).sent == [p];
    assert x.gotB + [] == x.gotB;
  }

  /** The reply makes A resend the first message B lacks. */
  lemma RecoverResend(x: Link, p: Packet) returns (d: Packet)
    requires Inv(x) && x.a.state == Established && |x.gotB| < |x.sentA|
    requires 1 <= p.spec <= NQT && x.a.qt[p.spec] == x.a.start + |x.sentA|
    requires p.kind == StateReply && p.ack == x.a.start + |x.gotB| && p in x.ba
    ensures d.kind == DataQuery && d.id == x.a.start + |x.gotB| + 1 && d in AMoves(x, Arrive(p, false)).ab
    ensures var y := AMoves(x, Arrive(p, false));
      Next(x, y) && y.b == x.b && y.sentA == x.sentA && y.gotB == x.gotB && y.a.start == x.a.start
  {
    d := ReplyResends(x.a, p, x.sentA, |x.gotB|);
    assert Step(x.a, Arrive(p, false)).sent == [d];
    assert x.sentA + [] == x.sentA;
  }

  lemma RecoverDelivery(x: Link, d: Packet)
    requires Inv(x) && x.b.state == Established
    requires d.kind == DataQuery && d.id == x.a.start + |x.gotB| + 1 && d in x.ab
    ensures var y := BMoves(x, Arrive(d, false)); Next(x, y) && y.sentA == x.sentA && x.gotB < y.gotB
  {
    ReceiveReceives(x.a, x.b, d, x.sentA, x.gotB);
  }
}
