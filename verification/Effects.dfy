/**
 * What each operation of the node does to its fields, told of the fields alone: a frame handed over, the two flushes, a
 * contact heard from, and one finished send applied.
 */
module Effects {
  import opened Wrappers
  import opened RelayList
  import opened Posting
  import opened Outbox
  import opened InFlight

  // ---------------------------------------------------------------- a frame to a contact

  predicate IsVersion(done: Done) {
    done.Announced? && done.kind.Version?
  }

  /** Where a frame for `c` goes besides its own device: exactly the relays both sides reach, or nowhere. */
  ghost predicate RoutedTo(s: State, c: Contact, send: DetachedSend) {
    if c !in s.chats || s.routes.own == [] || s.chats[c].mailbox.None? || s.chats[c].peer.None?
    then send.primary.None? && send.peerRelays == []
    else
      var peer := s.chats[c].peer.value;
      && send.primary == (if peer.nightdrop then s.routes.relay else None)
      && Distinct(send.peerRelays)
      && forall addr :: addr in send.peerRelays <==> Reaches(s.routes, peer, addr)
  }

  /** Every frame for an up-to-date contact, and the version announcement for any, is queued: once, direct first. */
  lemma DeliverQueues(s: State, address: string, c: Contact, bytes: Frame, fresh_: bool, done: Done)
    requires !Outdated(s, c) || IsVersion(done)
    ensures var s' := Deliver(s, address, c, bytes, fresh_, done);
      && |s'.outbox| == |s.outbox| + 1 && s' == s.(outbox := s.outbox + [s'.outbox[|s.outbox|]])
      && var out := s'.outbox[|s.outbox|];
      && out.route == DirectThenRelay && out.done == done
      && out.send.recipient == Some(c) && out.send.bytes == bytes && out.send.peerAddress == address
      && out.send.fresh_ == fresh_ && RoutedTo(s, c, out.send)
      && out.send.handle == if c in s.chats && s.chats[c].mailbox.Some? then s.chats[c].mailbox.value else ""
  {
    if c in s.chats {
      RouteExact(s.routes, s.chats[c].mailbox, s.chats[c].peer);
    }
  }

  /** Anything else for an outdated contact: a one-off frame is held, idle and last; a standing one is left. */
  lemma DeliverWaits(s: State, address: string, c: Contact, bytes: Frame, fresh_: bool, done: Done)
    requires Outdated(s, c) && !IsVersion(done)
    ensures var s' := Deliver(s, address, c, bytes, fresh_, done);
      if done.Nothing? || done.Caller?
      then s' == s.(held := s.held + [HeldSend(c, None, bytes, false)], holdLog := s.holdLog + [bytes])
      else s' == s
  {
  }

  // ---------------------------------------------------------------- a flush of the held queue

  lemma {:induction false} PruneKeepsOrder(held: seq<HeldSend>, chats: map<Contact, Chat>) returns (places: seq<nat>)
    ensures StandsAt(KeepOpen(held, chats), places, held)
    ensures forall i :: 0 <= i < |held| ==>
              (i in places <==> held[i].contact in chats && !chats[held[i].contact].closed)
  {
    places := [];
    if held != [] {
      var n := |held| - 1;
      var front, h := held[..n], held[n];
      places := PruneKeepsOrder(front, chats);
      StandsInMore(KeepOpen(front, chats), places, front, h);
      assert held == front + [h];
      if h.contact in chats && !chats[h.contact].closed {
        places := places + [n];
      }
    }
  }

  /** No retry clock holds `c` back. */
  predicate Due(s: State, c: Contact, now: nat) {
    c in s.backoff ==> now >= s.backoff[c].next
  }

  /** Entry `i` of the open chats' frames is sent: it is asked for, idle, and either routed or its contact's next. */
  predicate IsSent(s: State, held: seq<HeldSend>, only: Option<Contact>, now: nat, i: nat)
    requires i < |held|
  {
    var c := held[i].contact;
    && (only == None || only == Some(c))
    && !held[i].inFlight
    && c in s.chats && !s.chats[c].outdated
    && (HasRoute(s, c) || (Due(s, c, now) && forall j :: 0 <= j < i ==> held[j].contact != c))
  }

  /** The send of a held frame: a new connection, and relays alone for a routed contact unless its device is first. */
  ghost predicate SendsHeld(s: State, h: HeldSend, directFirst: bool, out: Outbound) {
    && out.done == Held(h.bytes)
    && out.route == (if HasRoute(s, h.contact) && !directFirst then RelayOnly else DirectThenRelay)
    && out.send.recipient == Some(h.contact) && out.send.bytes == h.bytes && out.send.fresh_
    && RoutedTo(s, h.contact, out.send)
    && h.contact in s.chats && out.send.peerAddress == s.chats[h.contact].address
    && out.send.handle == if s.chats[h.contact].mailbox.Some? then s.chats[h.contact].mailbox.value else ""
  }

  /** `open_` is the open chats' frames, in order. */
  ghost predicate OpenOnly(s: State, places: seq<nat>, open_: seq<HeldSend>) {
    && StandsAt(open_, places, s.held)
    && forall i :: 0 <= i < |s.held| ==> (i in places <==> OpenChat(s, s.held[i].contact))
  }

  /** `going` is what is to be sent of `open_`, in order. */
  ghost predicate AreSent(s: State, open_: seq<HeldSend>, only: Option<Contact>, now: nat, going: seq<nat>) {
    && (forall k :: 0 <= k < |going| ==> going[k] < |open_| && open_[going[k]].contact in s.chats)
    && (forall i :: 0 <= i < |open_| ==> (i in going <==> IsSent(s, open_, only, now, i)))
    && (forall j, k :: 0 <= j < k < |going| ==> going[j] < going[k])
  }

  ghost predicate MarksSent(open_: seq<HeldSend>, going: seq<nat>, held': seq<HeldSend>) {
    && |held'| == |open_|
    && forall i :: 0 <= i < |open_| ==> held'[i] == open_[i].(inFlight := open_[i].inFlight || i in going)
  }

  ghost predicate QueuesSent(s: State, open_: seq<HeldSend>, going: seq<nat>, directFirst: bool, outs: seq<Outbound>) {
    && |outs| == |going|
    && forall k :: 0 <= k < |going| ==> going[k] < |open_| && SendsHeld(s, open_[going[k]], directFirst, outs[k])
  }

  /**
   * A flush drops the frames of closed chats, marks exactly the entries that are to be sent, and queues one send for
   * each of them, in order.
   */
  lemma FlushTells(s: State, only: Option<Contact>, directFirst: bool, now: nat)
    returns (places: seq<nat>, going: seq<nat>, open_: seq<HeldSend>, outs: seq<Outbound>)
    ensures OpenOnly(s, places, open_) && AreSent(s, open_, only, now, going)
    ensures var s' := FlushHeld(s, only, directFirst, now);
      && s' == s.(held := s'.held, outbox := s.outbox + outs)
      && MarksSent(open_, going, s'.held) && QueuesSent(s, open_, going, directFirst, outs)
  {
    var p := Prune(s);
    open_, going := p.held, Going(p, only, now, |p.held|);
    places := PruneKeepsOrder(s.held, s.chats);
    GoingIsSent(s, only, now, places);
    outs := HeldOutbounds(p, going, directFirst);
    QueuedInOrder(s, directFirst, going);
  }

  lemma GoingIsSent(s: State, only: Option<Contact>, now: nat, places: seq<nat>)
    requires OpenOnly(s, places, Prune(s).held)
    ensures AreSent(s, Prune(s).held, only, now, Going(Prune(s), only, now, |Prune(s).held|))
  {
    var p := Prune(s);
    GoingExact(p, only, now, |p.held|);
    forall i | 0 <= i < |p.held|
      ensures p.held[i].contact in s.chats && (Goes(p, only, now, i) <==> IsSent(s, p.held, only, now, i))
    {
      assert p.held[i] == s.held[places[i]];
      assert places[i] in places;
    }
  }

  lemma QueuedInOrder(s: State, directFirst: bool, going: seq<nat>)
    requires forall k :: 0 <= k < |going| ==> going[k] < |Prune(s).held| && Prune(s).held[going[k]].contact in s.chats
    ensures QueuesSent(s, Prune(s).held, going, directFirst, HeldOutbounds(Prune(s), going, directFirst))
  {
    forall k | 0 <= k < |going|
      ensures SendsHeld(s, Prune(s).held[going[k]], directFirst, HeldOutbound(Prune(s), going[k], directFirst))
    {
      HeldSendTells(s, Prune(s).held, going[k], directFirst);
    }
  }

  lemma HeldSendTells(s: State, open_: seq<HeldSend>, i: nat, directFirst: bool)
    requires open_ == Prune(s).held && i < |open_| && open_[i].contact in s.chats
    ensures SendsHeld(s, open_[i], directFirst, HeldOutbound(Prune(s), i, directFirst))
  {
    var c := open_[i].contact;
    RouteExact(s.routes, s.chats[c].mailbox, s.chats[c].peer);
  }

  // ---------------------------------------------------------------- a flush of the control queue

  /** Where a control frame goes by its own routing. */
  ghost predicate ControlRouted(s: State, p: PendingControl, send: DetachedSend) {
    if s.routes.own == [] || p.handle == "" then send.primary.None? && send.peerRelays == []
    else
      && send.primary == (if p.peer.nightdrop then s.routes.relay else None)
      && Distinct(send.peerRelays)
      && forall addr :: addr in send.peerRelays <==> Reaches(s.routes, p.peer, addr)
  }

  /** A relay to go to: the Night Drop client, or some address both sides reach. */
  ghost predicate ControlHasRelay(s: State, p: PendingControl) {
    && s.routes.own != [] && p.handle != ""
    && ((p.peer.nightdrop && s.routes.relay.Some?) || exists addr :: Reaches(s.routes, p.peer, addr))
  }

  lemma DetachPendingTells(s: State, p: PendingControl)
    ensures var send := DetachPending(s, p);
      && send.recipient == Some(p.recipient) && send.bytes == p.bytes && send.handle == p.handle
      && send.peerAddress == p.peerAddress && !send.fresh_ && ControlRouted(s, p, send)
      && (send.Relayless() <==> !ControlHasRelay(s, p))
  {
    var send := DetachPending(s, p);
    RouteExact(s.routes, Some(p.handle), Some(p.peer));
    assert ControlRouted(s, p, send);
    if addr :| Reaches(s.routes, p.peer, addr) && s.routes.own != [] && p.handle != "" {
      assert addr in send.peerRelays;
    }
    if send.peerRelays != [] {
      assert send.peerRelays[0] in send.peerRelays;
    }
  }

  /** A control frame is sent when it is asked for, idle, and routed or not held back; its chat may be gone. */
  ghost predicate ControlIsSent(s: State, only: Option<Contact>, now: nat, p: PendingControl) {
    && (only == None || only == Some(p.recipient))
    && !p.inFlight
    && (ControlHasRelay(s, p) || (!Outdated(s, p.recipient) && (HasRoute(s, p.recipient) || Due(s, p.recipient, now))))
  }

  ghost predicate SendsControl(s: State, p: PendingControl, out: Outbound) {
    && out.done == Control(p.bytes) && out.route == RelayThenDirect
    && out.send.recipient == Some(p.recipient) && out.send.bytes == p.bytes && out.send.handle == p.handle
    && out.send.peerAddress == p.peerAddress && !out.send.fresh_ && ControlRouted(s, p, out.send)
  }

  lemma ControlMarksTell(s: State, only: Option<Contact>, now: nat)
    ensures var s' := FlushControl(s, only, now);
      && s' == s.(pending := s'.pending, outbox := s'.outbox) && s.outbox <= s'.outbox
      && |s'.pending| == |s.pending|
      && forall i :: 0 <= i < |s.pending| ==>
            var p := s.pending[i];
            s'.pending[i] == p.(inFlight := p.inFlight || ControlIsSent(s, only, now, p))
  {
    forall p ensures ControlDue(s, only, now, p) <==> ControlIsSent(s, only, now, p) {
      DetachPendingTells(s, p);
    }
  }

  /** A flush marks exactly the control entries that are to be sent, and queues one send for each, in order. */
  lemma FlushControlTells(s: State, only: Option<Contact>, now: nat) returns (due: seq<nat>, outs: seq<Outbound>)
    requires DistinctControls(s.pending)
    ensures FlushControl(s, only, now) == s.(pending := FlushControl(s, only, now).pending, outbox := s.outbox + outs)
    ensures |outs| == |due|
    ensures forall i :: 0 <= i < |s.pending| ==> (i in due <==> ControlIsSent(s, only, now, s.pending[i]))
    ensures forall k :: 0 <= k < |due| ==> due[k] < |s.pending| && SendsControl(s, s.pending[due[k]], outs[k])
    ensures forall j, k :: 0 <= j < k < |due| ==> due[j] < due[k]
    ensures |FlushControl(s, only, now).pending| == |s.pending|
    ensures forall i :: 0 <= i < |s.pending| ==>
              FlushControl(s, only, now).pending[i] == s.pending[i].(inFlight := s.pending[i].inFlight || i in due)
  {
    due, outs := DueControls(s, only, now, |s.pending|), ControlOutbounds(s, only, now, |s.pending|);
    DueControlsExact(s, only, now, |s.pending|);
    ControlSends(s, only, now, |s.pending|);
    forall p ensures ControlDue(s, only, now, p) <==> ControlIsSent(s, only, now, p) {
      DetachPendingTells(s, p);
    }
    forall k | 0 <= k < |due| ensures SendsControl(s, s.pending[due[k]], ControlRetry(s, s.pending[due[k]])) {
      DetachPendingTells(s, s.pending[due[k]]);
    }
  }

  /** A control frame is put last, marked, and sent by the route asked for. */
  lemma QueueControlTells(s: State, p: PendingControl, route: Route)
    ensures var s' := QueueControl(s, p, route);
      && |s'.outbox| == |s.outbox| + 1
      && s' == s.(pending := s.pending + [p.(inFlight := true)], outbox := s.outbox + [s'.outbox[|s.outbox|]])
      && SendsControl(s, p, s'.outbox[|s.outbox|].(route := RelayThenDirect)) && s'.outbox[|s.outbox|].route == route
  {
    DetachPendingTells(s, p.(inFlight := true));
  }

  // ---------------------------------------------------------------- a contact heard from

  /**
   * Hearing from `c` stops its clock. Then, of its open chat, the oldest held frame is on its way, or all are when it
   * is routed; and so is each of its control frames, unless it is outdated and there is no relay for it.
   */
  lemma HeardTells(s: State, c: Contact, now: nat)
    ensures var s' := Heard(s, c, now);
      && c !in s'.backoff && (forall d :: d != c ==> (d in s'.backoff <==> d in s.backoff))
      && (forall d :: d in s'.backoff ==> s'.backoff[d] == s.backoff[d])
      && s' == s.(held := s'.held, pending := s'.pending, outbox := s'.outbox, backoff := s'.backoff)
      && (OpenChat(s, c) && !Outdated(s, c) ==>
            forall i :: 0 <= i < |s'.held| && s'.held[i].contact == c && (HasRoute(s, c) || Oldest(s'.held, i)) ==>
              s'.held[i].inFlight)
      && |s'.pending| == |s.pending|
      && (forall i :: 0 <= i < |s.pending| ==>
            var p := s.pending[i];
            var goes := p.recipient == c && (ControlHasRelay(s, p) || !Outdated(s, c));
            s'.pending[i] == p.(inFlight := p.inFlight || goes))
  {
    var reset := s.(backoff := s.backoff - {c});
    var flushed := FlushHeld(reset, Some(c), true, now);
    var places, going, open_, outs := FlushTells(reset, Some(c), true, now);
    ControlMarksTell(flushed, Some(c), now);
    forall p ensures ControlHasRelay(flushed, p) == ControlHasRelay(s, p) {
    }
  }

  // ---------------------------------------------------------------- one finished send applied

  /** The retry clock of the contact the result is about. */
  predicate ClockMoves(s: State, s': State, f: Finished, c: Contact, now: nat) {
    if f.delivery.Failed? && f.relayless then
      var cap := if s.background then 900 else 300;
      && c in s'.backoff
      && s'.backoff[c].delay == (if c !in s.backoff then 60
                                 else if 2 * s.backoff[c].delay < cap then 2 * s.backoff[c].delay else cap)
      && s'.backoff[c].next == now + s'.backoff[c].delay
    else if f.delivery.Direct? then c !in s'.backoff
    else ClockStays(s, s', c)
  }

  predicate ClockStays(s: State, s': State, c: Contact) {
    (c in s'.backoff <==> c in s.backoff) && (c in s.backoff ==> s'.backoff[c] == s.backoff[c])
  }

  /**
   * A failure with no relay to go to starts the recipient's clock at a minute, or doubles it up to the cap; an arrival
   * on its device stops it; nothing else moves it, and no result moves another's or one's own.
   */
  lemma ResultMovesClock(s: State, f: Finished, now: nat)
    ensures var s' := ApplyOne(s, f, now);
      forall c :: if f.recipient == Some(c) && c != s.me then ClockMoves(s, s', f, c, now) else ClockStays(s, s', c)
  {
    DoneKeepsClocks(Rescued(Clocked(s, f, now), f), f.done, f.delivery, now);
  }

  lemma DoneKeepsClocks(s: State, done: Done, delivery: Delivery, now: nat)
    ensures ApplyDone(s, done, delivery, now).backoff == s.backoff
  {
    if done.Held? {
      HeldDoneTells(s, done.bytes, delivery, now);
    }
  }

  /** Before its own effect a result touches the clock, and holds a frame that would be lost, and no more. */
  lemma SettledTells(s: State, f: Finished, now: nat)
    ensures var settled := Rescued(Clocked(s, f, now), f);
      && settled == s.(held := settled.held, holdLog := settled.holdLog, backoff := settled.backoff)
      && (f.done.Held? ==> settled.held == s.held)
  {
  }

  lemma FlushTouches(s: State, only: Option<Contact>, directFirst: bool, now: nat)
    ensures var s' := FlushHeld(s, only, directFirst, now);
      s' == s.(held := s'.held, outbox := s'.outbox)
  {
  }

  function Awaits(h: HeldSend, now: nat): seq<AwaitingReceipt> {
    if h.msg.None? then [] else [AwaitingReceipt(h.contact, h.msg.value, now)]
  }

  /** What an arrived held frame leaves behind: a receipt to wait for, or its copies recorded. */
  predicate ArrivalTells(s: State, s': State, h: HeldSend, delivery: Delivery, now: nat) {
    && s'.awaiting == (if delivery.Direct? then s.awaiting + Awaits(h, now) else s.awaiting)
    && s'.chats == if delivery.Relay? && h.msg.Some? then Record(s, h.contact, h.msg.value, delivery.copies).chats
                   else s.chats
  }

  lemma HeldArrivedTells(s: State, i: nat, delivery: Delivery, now: nat)
    requires i < |s.held|
    ensures var s' := HeldArrived(s, i, delivery, now);
      && s' == s.(held := s'.held, outbox := s'.outbox, chats := s'.chats, awaiting := s'.awaiting)
      && ArrivalTells(s, s', s.held[i], delivery, now)
  {
    var h := s.held[i];
    var gone := s.(held := s.held[..i] + s.held[i + 1..]);
    if delivery.Direct? {
      FlushTouches(gone.(awaiting := gone.awaiting + Awaits(h, now)), Some(h.contact), true, now);
      assert gone.awaiting + [] == gone.awaiting;
    }
  }

  lemma HeldDoneTells(s: State, bytes: Frame, delivery: Delivery, now: nat)
    ensures var s', i := HeldDone(s, bytes, delivery, now), FindHeld(s.held, bytes);
      && s' == s.(held := s'.held, outbox := s'.outbox, chats := s'.chats, awaiting := s'.awaiting)
      && (i.None? ==> s' == s)
      && (i.Some? ==> i.value < |s.held| && ArrivalTells(s, s', s.held[i.value], delivery, now))
  {
    FindHeldExact(s.held, bytes);
    var i := FindHeld(s.held, bytes);
    if i.Some? && !delivery.Failed? {
      HeldArrivedTells(s, i.value, delivery, now);
    }
  }

  /** A failed one-off frame with no relay to go to, for an open chat. */
  predicate IsRescued(s: State, f: Finished) {
    && f.delivery.Failed? && f.relayless && (f.done.Nothing? || f.done.Caller?)
    && f.recipient.Some? && f.recipient.value in s.chats && !s.chats[f.recipient.value].closed
  }

  /** A result of anything but a held frame: such a frame is held, idle and last; nothing else is held or queued. */
  lemma ResultHolds(s: State, f: Finished, now: nat)
    requires !f.done.Held?
    ensures var s' := ApplyOne(s, f, now);
      && s'.outbox == s.outbox
      && (IsRescued(s, f) ==>
            && s'.held == s.held + [HeldSend(f.recipient.value, None, f.bytes, false)]
            && s'.holdLog == s.holdLog + [f.bytes])
      && (!IsRescued(s, f) ==> s'.held == s.held && s'.holdLog == s.holdLog)
  {
    var settled := Rescued(Clocked(s, f, now), f);
    OtherDoneTells(settled, f.done, f.delivery, now);
  }

  lemma OtherDoneTells(s: State, done: Done, delivery: Delivery, now: nat)
    requires !done.Held?
    ensures var s' := ApplyDone(s, done, delivery, now);
      s' == s.(chats := s'.chats, pending := s'.pending, awaiting := s'.awaiting)
  {
  }

  /** The held entry a result is about: the first with its bytes. */
  predicate IsFirst(held: seq<HeldSend>, bytes: Frame, i: nat) {
    i < |held| && held[i].bytes == bytes && forall j :: 0 <= j < i ==> held[j].bytes != bytes
  }

  lemma FirstIsFound(held: seq<HeldSend>, bytes: Frame, i: nat)
    requires IsFirst(held, bytes, i)
    ensures FindHeld(held, bytes) == Some(i)
  {
    FindHeldExact(held, bytes);
    assert held[i] in held;
  }

  /** A held frame's result: failed, it is idle again; arrived, it is gone, and arrived directly a flush follows. */
  lemma HeldResult(s: State, f: Finished, now: nat, i: nat)
    requires f.done.Held? && IsFirst(s.held, f.done.bytes, i)
    ensures var s' := ApplyOne(s, f, now);
      var rest := s.held[..i] + s.held[i + 1..];
      match f.delivery
      case Failed => s'.held == s.held[i := s.held[i].(inFlight := false)] && s'.outbox == s.outbox
      case Relay(_) => s'.held == rest && s'.outbox == s.outbox
      case Direct =>
        var flushed := FlushHeld(s.(held := rest, backoff := s'.backoff), Some(s.held[i].contact), true, now);
        s'.held == flushed.held && s'.outbox == flushed.outbox
  {
    var settled := Rescued(Clocked(s, f, now), f);
    FirstIsFound(s.held, f.done.bytes, i);
    SettledTells(s, f, now);
    DoneKeepsClocks(settled, f.done, f.delivery, now);
    if f.delivery.Direct? {
      HeldDirect(settled, s, i, now);
    }
  }

  lemma HeldDirect(settled: State, s: State, i: nat, now: nat)
    requires i < |s.held| && settled == s.(backoff := settled.backoff, holdLog := settled.holdLog)
    ensures var s' := HeldArrived(settled, i, Direct, now);
      var rest := s.(held := s.held[..i] + s.held[i + 1..], backoff := settled.backoff);
      var flushed := FlushHeld(rest, Some(s.held[i].contact), true, now);
      s'.held == flushed.held && s'.outbox == flushed.outbox
  {
    var h := s.held[i];
    var gone := settled.(held := s.held[..i] + s.held[i + 1..]);
    var waiting := if h.msg.None? then gone
                   else gone.(awaiting := gone.awaiting + [AwaitingReceipt(h.contact, h.msg.value, now)]);
    FlushSame(waiting, s.(held := gone.held, backoff := settled.backoff), h.contact, now);
  }

  lemma FlushSame(a: State, b: State, c: Contact, now: nat)
    requires a.chats == b.chats && a.routes == b.routes && a.held == b.held && a.backoff == b.backoff
    requires a.outbox == b.outbox
    ensures FlushHeld(a, Some(c), true, now).held == FlushHeld(b, Some(c), true, now).held
    ensures FlushHeld(a, Some(c), true, now).outbox == FlushHeld(b, Some(c), true, now).outbox
  {
    GoingSame(Prune(a), Prune(b), c, now, |Prune(a).held|);
  }

  lemma {:induction false} GoingSame(a: State, b: State, c: Contact, now: nat, n: nat)
    requires a.chats == b.chats && a.routes == b.routes && a.held == b.held && a.backoff == b.backoff && n <= |a.held|
    ensures Going(a, Some(c), now, n) == Going(b, Some(c), now, n)
  {
    if n > 0 {
      GoingSame(a, b, c, now, n - 1);
    }
  }

  /** A result that finds no held entry is about a chat deleted meanwhile, and changes no queue. */
  lemma HeldOrphan(s: State, f: Finished, now: nat)
    requires f.done.Held? && forall h :: h in s.held ==> h.bytes != f.done.bytes
    ensures var s' := ApplyOne(s, f, now);
      s'.held == s.held && s'.outbox == s.outbox && s'.chats == s.chats && s'.awaiting == s.awaiting
  {
    FindHeldExact(s.held, f.done.bytes);
  }

  /** What a control result leaves of the control queue: landed, its frame is gone; failed, it is idle again. */
  ghost predicate ControlSettles(pending: seq<PendingControl>, pending': seq<PendingControl>, bytes: Frame,
                                 landed: bool)
  {
    if landed then forall p :: p in pending' <==> p in pending && p.bytes != bytes
    else
      && |pending'| == |pending|
      && forall i :: 0 <= i < |pending| ==>
           pending'[i] == if FirstControl(pending, bytes, i) then pending[i].(inFlight := false) else pending[i]
  }

  lemma ControlResult(s: State, f: Finished, now: nat)
    ensures var s' := ApplyOne(s, f, now);
      if f.done.Control? then ControlSettles(s.pending, s'.pending, f.done.bytes, !f.delivery.Failed?)
      else s'.pending == s.pending
  {
    var settled := Rescued(Clocked(s, f, now), f);
    SettledTells(s, f, now);
    match f.done {
      case Control(bytes) => ControlDoneTells(settled, bytes, !f.delivery.Failed?);
      case Held(bytes) => HeldDoneTells(settled, bytes, f.delivery, now);
      case _ =>
    }
  }

  /** What stays of the queue when a frame lands keeps its order. */
  lemma {:induction false} LandedKeepsOrder(pending: seq<PendingControl>, bytes: Frame) returns (places: seq<nat>)
    ensures StandsAt(WithoutControl(pending, bytes), places, pending)
    ensures forall i :: 0 <= i < |pending| ==> (i in places <==> pending[i].bytes != bytes)
  {
    places := [];
    if pending != [] {
      var n := |pending| - 1;
      var front, p := pending[..n], pending[n];
      places := LandedKeepsOrder(front, bytes);
      StandsInMore(WithoutControl(front, bytes), places, front, p);
      assert pending == front + [p];
      if p.bytes != bytes {
        places := places + [n];
      }
    }
  }

  lemma ControlDoneTells(s: State, bytes: Frame, landed: bool)
    ensures ControlSettles(s.pending, ControlDone(s, bytes, landed).pending, bytes, landed)
  {
    FindControlExact(s.pending, bytes);
    WithoutControlExact(s.pending, bytes);
    var found := FindControl(s.pending, bytes);
    forall i | 0 <= i < |s.pending| ensures FirstControl(s.pending, bytes, i) <==> found == Some(i) {
      assert s.pending[i] in s.pending;
    }
  }

  predicate FirstControl(pending: seq<PendingControl>, bytes: Frame, i: nat) {
    i < |pending| && pending[i].bytes == bytes && forall j :: 0 <= j < i ==> pending[j].bytes != bytes
  }

  /** The message a relay copy is recorded against, and its receipts; none for another result. */
  function Recorded(s: State, f: Finished): Option<(Contact, MsgId, seq<QueuedReceipt>)> {
    if !f.delivery.Relay? then None
    else match f.done
      case Caller(Some(m)) => Some((m.0, m.1, f.delivery.copies))
      case Unconfirmed(a) => Some((a.contact, a.msg, f.delivery.copies + [HANDED_DIRECTLY]))
      case Held(bytes) =>
        FindHeldExact(s.held, bytes);
        var i := FindHeld(s.held, bytes);
        if i.Some? && s.held[i.value].msg.Some?
        then Some((s.held[i.value].contact, s.held[i.value].msg.value, f.delivery.copies))
        else None
      case _ => None
  }

  /** A result changes no chat but by recording the copies of that message, if its chat is there. */
  lemma ResultRecords(s: State, f: Finished, now: nat)
    ensures ApplyOne(s, f, now).chats.Keys == s.chats.Keys
    ensures forall c :: c in s.chats ==> ApplyOne(s, f, now).chats[c] == ChatAfter(s.chats[c], Recorded(s, f), c)
  {
    var settled := Rescued(Clocked(s, f, now), f);
    SettledTells(s, f, now);
    if f.done.Held? {
      HeldDoneTells(settled, f.done.bytes, f.delivery, now);
    }
  }

  function ChatAfter(chat: Chat, record: Option<(Contact, MsgId, seq<QueuedReceipt>)>, c: Contact): Chat {
    if record.Some? && record.value.0 == c then chat.(receipts := chat.receipts[record.value.1 := record.value.2])
    else chat
  }

  /** What newly waits for a receipt: a message handed over directly, from now; a copy that failed, as before. */
  function NewlyAwaiting(s: State, f: Finished, now: nat): seq<AwaitingReceipt> {
    match f.done
    case Unconfirmed(a) =>
      if f.delivery.Direct? then [AwaitingReceipt(a.contact, a.msg, now)] else if f.delivery.Failed? then [a] else []
    case Held(bytes) =>
      FindHeldExact(s.held, bytes);
      var i := FindHeld(s.held, bytes);
      if i.Some? && f.delivery.Direct? then Awaits(s.held[i.value], now) else []
    case _ => []
  }

  lemma ResultAwaits(s: State, f: Finished, now: nat)
    ensures ApplyOne(s, f, now).awaiting == s.awaiting + NewlyAwaiting(s, f, now)
  {
    var settled := Rescued(Clocked(s, f, now), f);
    SettledTells(s, f, now);
    if f.done.Held? {
      HeldDoneTells(settled, f.done.bytes, f.delivery, now);
    }
  }
}
