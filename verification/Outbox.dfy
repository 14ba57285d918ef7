/** The outbox and the queues behind it: frames sealed under the lock, sent without it, applied under it. */
module Outbox {
  import opened Wrappers
  import opened RelayList
  import opened Posting

  type MsgId(==, !new)

  const HELD_RETRY_FIRST_SECS: nat := 60
  const HELD_RETRY_CAP_OPEN_SECS: nat := 5 * 60
  const HELD_RETRY_CAP_BACKGROUND_SECS: nat := 15 * 60

  // ---------------------------------------------------------------- entities

  datatype Chat = Chat(
    closed: bool,
    outdated: bool,
    address: string,
    peer: Option<RelaySet>,
    mailbox: Option<string>,
    receipts: map<MsgId, seq<QueuedReceipt>>)

  /** One frame held for delivery; a control frame has no message. */
  datatype HeldSend = HeldSend(contact: Contact, msg: Option<MsgId>, bytes: Frame, inFlight: bool)

  /** A frame that must not be lost, with its own routing since its chat may go. */
  datatype PendingControl = PendingControl(
    recipient: Contact,
    peerAddress: string,
    peer: RelaySet,
    bytes: Frame,
    handle: string,
    inFlight: bool)

  datatype AwaitingReceipt = AwaitingReceipt(contact: Contact, msg: MsgId, since: nat)

  datatype Announce = Burns | Version | Mailbox | Address | Relays | Captures | Block | Nearby | UpgradeNotice

  /** What a finished send changes. */
  datatype Done =
    | Nothing
    | Caller(record: Option<(Contact, MsgId)>)
    | Announced(kind: Announce, contact: Contact)
    | Control(bytes: Frame)
    | Held(bytes: Frame)
    | Unconfirmed(awaiting: AwaitingReceipt)
    | Cover
  {
    /** A frame nothing else retries. */
    predicate OneOff() {
      Nothing? || Caller?
    }
  }

  datatype Outbound = Outbound(send: DetachedSend, route: Route, done: Done)

  datatype Finished = Finished(
    done: Done,
    delivery: Delivery,
    recipient: Option<Contact>,
    bytes: Frame,
    relayless: bool)

  function Finish(out: Outbound, delivery: Delivery): Finished {
    Finished(out.done, delivery, out.send.recipient, out.send.bytes, out.send.Relayless())
  }

  datatype Backoff = Backoff(delay: nat, next: nat)

  /** `holdLog` is history: every frame ever put in the held queue, in that order. */
  datatype State = State(
    me: Contact,
    chats: map<Contact, Chat>,
    routes: Routes,
    held: seq<HeldSend>,
    outbox: seq<Outbound>,
    pending: seq<PendingControl>,
    backoff: map<Contact, Backoff>,
    background: bool,
    awaiting: seq<AwaitingReceipt>,
    holdLog: seq<Frame>)

  // ---------------------------------------------------------------- reading the state

  predicate OpenChat(s: State, c: Contact) {
    c in s.chats && !s.chats[c].closed
  }

  predicate Outdated(s: State, c: Contact) {
    c in s.chats && s.chats[c].outdated
  }

  function DetachTo(s: State, c: Contact, address: string, bytes: Frame, fresh_: bool): DetachedSend {
    if c in s.chats then Detach(s.routes, s.chats[c].mailbox, s.chats[c].peer, c, address, bytes, fresh_)
    else Detach(s.routes, None, None, c, address, bytes, fresh_)
  }

  predicate HasRoute(s: State, c: Contact) {
    c in s.chats && RouteTo(s.routes, s.chats[c].mailbox, s.chats[c].peer) != NOWHERE
  }

  predicate MayRetry(s: State, c: Contact, now: nat) {
    !Outdated(s, c) && (HasRoute(s, c) || c !in s.backoff || now >= s.backoff[c].next)
  }

  function AddressOf(s: State, c: Contact): string {
    if c in s.chats then s.chats[c].address else ""
  }

  /** A contact with a relay route is exactly one whose detached frames have a relay to go to. */
  lemma DetachedIsRouted(s: State, c: Contact, address: string, bytes: Frame, fresh_: bool)
    ensures DetachTo(s, c, address, bytes, fresh_).Relayless() <==> !HasRoute(s, c)
    ensures DetachTo(s, c, address, bytes, fresh_).recipient == Some(c)
    ensures DetachTo(s, c, address, bytes, fresh_).bytes == bytes
  {
  }

  // ---------------------------------------------------------------- the held queue

  function Hold(s: State, c: Contact, msg: Option<MsgId>, bytes: Frame): State {
    s.(held := s.held + [HeldSend(c, msg, bytes, false)], holdLog := s.holdLog + [bytes])
  }

  function KeepOpen(held: seq<HeldSend>, chats: map<Contact, Chat>): seq<HeldSend> {
    if held == [] then []
    else
      var front, h := KeepOpen(held[..|held| - 1], chats), held[|held| - 1];
      if h.contact in chats && !chats[h.contact].closed then front + [h] else front
  }

  function Prune(s: State): State {
    s.(held := KeepOpen(s.held, s.chats))
  }

  predicate Oldest(held: seq<HeldSend>, i: nat)
    requires i < |held|
  {
    forall j :: 0 <= j < i ==> held[j].contact != held[i].contact
  }

  /** Whether a flush sends entry `i`: a routed contact's every idle entry, an unrouted one's oldest when due. */
  predicate Goes(s: State, only: Option<Contact>, now: nat, i: nat)
    requires i < |s.held|
  {
    var h := s.held[i];
    && (only.None? || only.value == h.contact)
    && !Outdated(s, h.contact)
    && !h.inFlight
    && (HasRoute(s, h.contact) || (Oldest(s.held, i) && MayRetry(s, h.contact, now)))
  }

  function Going(s: State, only: Option<Contact>, now: nat, n: nat): seq<nat>
    requires n <= |s.held|
  {
    if n == 0 then []
    else if Goes(s, only, now, n - 1) then Going(s, only, now, n - 1) + [n - 1]
    else Going(s, only, now, n - 1)
  }

  function FlushRoute(s: State, c: Contact, directFirst: bool): Route {
    if HasRoute(s, c) && !directFirst then RelayOnly else DirectThenRelay
  }

  function HeldOutbound(s: State, i: nat, directFirst: bool): Outbound
    requires i < |s.held|
  {
    var h := s.held[i];
    Outbound(DetachTo(s, h.contact, AddressOf(s, h.contact), h.bytes, true), FlushRoute(s, h.contact, directFirst),
             Held(h.bytes))
  }

  function Marked(held: seq<HeldSend>, going: seq<nat>): seq<HeldSend> {
    seq(|held|, i requires 0 <= i < |held| => if i in going then held[i].(inFlight := true) else held[i])
  }

  function HeldOutbounds(s: State, going: seq<nat>, directFirst: bool): seq<Outbound>
    requires forall k :: 0 <= k < |going| ==> going[k] < |s.held|
  {
    seq(|going|, k requires 0 <= k < |going| => HeldOutbound(s, going[k], directFirst))
  }

  lemma {:induction false} GoingExact(s: State, only: Option<Contact>, now: nat, n: nat)
    requires n <= |s.held|
    ensures forall k :: 0 <= k < |Going(s, only, now, n)| ==> Going(s, only, now, n)[k] < n
    ensures forall i: nat :: i < n ==> (i in Going(s, only, now, n) <==> Goes(s, only, now, i))
    ensures forall j, k :: 0 <= j < k < |Going(s, only, now, n)| ==>
              Going(s, only, now, n)[j] < Going(s, only, now, n)[k]
  {
    if n > 0 {
      GoingExact(s, only, now, n - 1);
    }
  }

  lemma MarkedStep(s: State, going: seq<nat>, k: nat, directFirst: bool)
    requires k < |going| && forall j :: 0 <= j < |going| ==> going[j] < |s.held|
    ensures Marked(s.held, going[..k + 1])
         == Marked(s.held, going[..k])[going[k] := s.held[going[k]].(inFlight := true)]
    ensures HeldOutbounds(s, going[..k + 1], directFirst)
         == HeldOutbounds(s, going[..k], directFirst) + [HeldOutbound(s, going[k], directFirst)]
  {
    assert going[..k + 1] == going[..k] + [going[k]];
  }

  function FlushHeld(s: State, only: Option<Contact>, directFirst: bool, now: nat): State {
    var p := Prune(s);
    var going := Going(p, only, now, |p.held|);
    GoingExact(p, only, now, |p.held|);
    p.(held := Marked(p.held, going), outbox := p.outbox + HeldOutbounds(p, going, directFirst))
  }

  // ---------------------------------------------------------------- control frames that must not be lost

  function DetachPending(s: State, p: PendingControl): DetachedSend {
    var (primary, peerRelays) := if p.handle == "" then NOWHERE else PostRoute(s.routes, p.peer);
    DetachedSend(primary, peerRelays, Some(p.recipient), p.handle, p.peerAddress, p.bytes, false)
  }

  function QueueControl(s: State, p: PendingControl, route: Route): State {
    s.(pending := s.pending + [p.(inFlight := true)],
       outbox := s.outbox + [Outbound(DetachPending(s, p.(inFlight := true)), route, Control(p.bytes))])
  }

  predicate ControlDue(s: State, only: Option<Contact>, now: nat, p: PendingControl) {
    && !p.inFlight
    && (only.None? || only.value == p.recipient)
    && (!DetachPending(s, p).Relayless() || MayRetry(s, p.recipient, now))
  }

  function MarkDue(s: State, only: Option<Contact>, now: nat): seq<PendingControl> {
    seq(|s.pending|, i requires 0 <= i < |s.pending| =>
      if ControlDue(s, only, now, s.pending[i]) then s.pending[i].(inFlight := true) else s.pending[i])
  }

  function FindControl(pending: seq<PendingControl>, bytes: Frame): Option<nat> {
    if pending == [] then None
    else if pending[0].bytes == bytes then Some(0)
    else
      var rest := FindControl(pending[1..], bytes);
      if rest.None? then None else Some(rest.value + 1)
  }

  lemma {:induction false} FindControlExact(pending: seq<PendingControl>, bytes: Frame)
    ensures FindControl(pending, bytes).Some? ==>
              var i := FindControl(pending, bytes).value;
              i < |pending| && pending[i].bytes == bytes && forall j :: 0 <= j < i ==> pending[j].bytes != bytes
    ensures FindControl(pending, bytes).None? ==> forall p :: p in pending ==> p.bytes != bytes
  {
    if pending != [] {
      FindControlExact(pending[1..], bytes);
      assert pending == [pending[0]] + pending[1..];
    }
  }

  function ControlOutbound(s: State, bytes: Frame): seq<Outbound> {
    FindControlExact(s.pending, bytes);
    var i := FindControl(s.pending, bytes);
    if i.None? then []
    else [Outbound(DetachPending(s, s.pending[i.value]), RelayThenDirect, Control(bytes))]
  }

  function ControlOutbounds(s: State, only: Option<Contact>, now: nat, n: nat): seq<Outbound>
    requires n <= |s.pending|
  {
    if n == 0 then []
    else
      var front, p := ControlOutbounds(s, only, now, n - 1), s.pending[n - 1];
      if ControlDue(s, only, now, p) then front + ControlOutbound(s, p.bytes) else front
  }

  function FlushControl(s: State, only: Option<Contact>, now: nat): State {
    s.(pending := MarkDue(s, only, now), outbox := s.outbox + ControlOutbounds(s, only, now, |s.pending|))
  }

  function WithoutControl(pending: seq<PendingControl>, bytes: Frame): seq<PendingControl> {
    if pending == [] then []
    else
      var front, p := WithoutControl(pending[..|pending| - 1], bytes), pending[|pending| - 1];
      if p.bytes == bytes then front else front + [p]
  }

  function ControlDone(s: State, bytes: Frame, delivered: bool): State {
    FindControlExact(s.pending, bytes);
    var i := FindControl(s.pending, bytes);
    if delivered then s.(pending := WithoutControl(s.pending, bytes))
    else if i.None? then s
    else s.(pending := s.pending[i.value := s.pending[i.value].(inFlight := false)])
  }

  // ---------------------------------------------------------------- queueing

  function Queue(s: State, send: DetachedSend, route: Route, done: Done): State {
    s.(outbox := s.outbox + [Outbound(send, route, done)])
  }

  /** A frame to a contact: queued, except that an outdated contact's waits (its version announcement aside). */
  function Deliver(s: State, address: string, c: Contact, bytes: Frame, fresh_: bool, done: Done): State {
    var version := done.Announced? && done.kind.Version?;
    if !version && Outdated(s, c) then
      if done.OneOff() then Hold(s, c, None, bytes) else s
    else
      Queue(s, DetachTo(s, c, address, bytes, fresh_), DirectThenRelay, done)
  }

  // ---------------------------------------------------------------- applying a round

  function RetryFailed(s: State, c: Contact, now: nat): State {
    var cap := if s.background then HELD_RETRY_CAP_BACKGROUND_SECS else HELD_RETRY_CAP_OPEN_SECS;
    var delay := if c !in s.backoff then HELD_RETRY_FIRST_SECS
                 else if s.backoff[c].delay * 2 < cap then s.backoff[c].delay * 2 else cap;
    s.(backoff := s.backoff[c := Backoff(delay, now + delay)])
  }

  /** The retry clock: a direct arrival resets it, a direct-only failure moves it on. */
  function Clocked(s: State, f: Finished, now: nat): State {
    if f.recipient.None? || f.recipient.value == s.me then s
    else if f.delivery.Direct? then s.(backoff := s.backoff - {f.recipient.value})
    else if f.delivery.Failed? && f.relayless then RetryFailed(s, f.recipient.value, now)
    else s
  }

  /** A one-off frame that had no relay to fall back on is held rather than lost. */
  predicate FallsBack(s: State, f: Finished) {
    f.delivery.Failed? && f.relayless && f.done.OneOff() && f.recipient.Some? && OpenChat(s, f.recipient.value)
  }

  function Rescued(s: State, f: Finished): State {
    if FallsBack(s, f) then Hold(s, f.recipient.value, None, f.bytes) else s
  }

  function Record(s: State, c: Contact, msg: MsgId, copies: seq<QueuedReceipt>): State {
    if c !in s.chats then s
    else s.(chats := s.chats[c := s.chats[c].(receipts := s.chats[c].receipts[msg := copies])])
  }

  function FindHeld(held: seq<HeldSend>, bytes: Frame): Option<nat> {
    if held == [] then None
    else if held[0].bytes == bytes then Some(0)
    else
      var rest := FindHeld(held[1..], bytes);
      if rest.None? then None else Some(rest.value + 1)
  }

  lemma {:induction false} FindHeldExact(held: seq<HeldSend>, bytes: Frame)
    ensures FindHeld(held, bytes).Some? ==>
              var i := FindHeld(held, bytes).value;
              i < |held| && held[i].bytes == bytes && forall j :: 0 <= j < i ==> held[j].bytes != bytes
    ensures FindHeld(held, bytes).None? ==> forall h :: h in held ==> h.bytes != bytes
  {
    if held != [] {
      FindHeldExact(held[1..], bytes);
      assert held == [held[0]] + held[1..];
    }
  }

  /** A held frame that arrived leaves the queue; arriving directly, it lets its contact's next one go. */
  function HeldArrived(s: State, i: nat, delivery: Delivery, now: nat): State
    requires i < |s.held|
  {
    var h := s.held[i];
    var gone := s.(held := s.held[..i] + s.held[i + 1..]);
    if delivery.Direct? then
      var waiting := if h.msg.None? then gone
                     else gone.(awaiting := gone.awaiting + [AwaitingReceipt(h.contact, h.msg.value, now)]);
      FlushHeld(waiting, Some(h.contact), true, now)
    else if delivery.Relay? && h.msg.Some? then Record(gone, h.contact, h.msg.value, delivery.copies)
    else gone
  }

  function HeldDone(s: State, bytes: Frame, delivery: Delivery, now: nat): State {
    FindHeldExact(s.held, bytes);
    var i := FindHeld(s.held, bytes);
    if i.None? then s
    else if delivery.Failed? then s.(held := s.held[i.value := s.held[i.value].(inFlight := false)])
    else HeldArrived(s, i.value, delivery, now)
  }

  /** The relay copy behind an unreceipted message: recorded with the direct copy that may still land. */
  function UnconfirmedDone(s: State, a: AwaitingReceipt, delivery: Delivery, now: nat): State {
    match delivery
    case Relay(copies) => Record(s, a.contact, a.msg, copies + [HANDED_DIRECTLY])
    case Direct => s.(awaiting := s.awaiting + [a.(since := now)])
    case Failed => s.(awaiting := s.awaiting + [a])
  }

  function ApplyDone(s: State, done: Done, delivery: Delivery, now: nat): State {
    match done
    case Nothing => s
    case Caller(record) =>
      if record.Some? && delivery.Relay? then Record(s, record.value.0, record.value.1, delivery.copies) else s
    case Announced(_, _) => s
    case Control(bytes) => ControlDone(s, bytes, !delivery.Failed?)
    case Held(bytes) => HeldDone(s, bytes, delivery, now)
    case Unconfirmed(a) => UnconfirmedDone(s, a, delivery, now)
    case Cover => s
  }

  function ApplyOne(s: State, f: Finished, now: nat): State {
    ApplyDone(Rescued(Clocked(s, f, now), f), f.done, f.delivery, now)
  }

  function Apply(s: State, finished: seq<Finished>, now: nat): State
    decreases |finished|
  {
    if finished == [] then s
    else Apply(ApplyOne(s, finished[0], now), finished[1..], now)
  }

  // ---------------------------------------------------------------- splitting the outbox

  predicate IsCaller(out: Outbound) {
    out.done.Caller?
  }

  function Callers(outbox: seq<Outbound>): seq<Outbound> {
    if outbox == [] then []
    else
      var front, out := Callers(outbox[..|outbox| - 1]), outbox[|outbox| - 1];
      if IsCaller(out) then front + [out] else front
  }

  function Others(outbox: seq<Outbound>): seq<Outbound> {
    if outbox == [] then []
    else
      var front, out := Others(outbox[..|outbox| - 1]), outbox[|outbox| - 1];
      if IsCaller(out) then front else front + [out]
  }

  lemma {:induction false} SplitKeepsOrder(outbox: seq<Outbound>) returns (callers: seq<nat>, others: seq<nat>)
    ensures StandsAt(Callers(outbox), callers, outbox) && StandsAt(Others(outbox), others, outbox)
    ensures forall i :: 0 <= i < |outbox| ==> (i in callers <==> IsCaller(outbox[i]))
    ensures forall i :: 0 <= i < |outbox| ==> (i in others <==> !IsCaller(outbox[i]))
  {
    callers, others := [], [];
    if outbox != [] {
      var n := |outbox| - 1;
      var front, out := outbox[..n], outbox[n];
      callers, others := SplitKeepsOrder(front);
      StandsInMore(Callers(front), callers, front, out);
      StandsInMore(Others(front), others, front, out);
      assert outbox == front + [out];
      if IsCaller(out) {
        callers := callers + [n];
      } else {
        others := others + [n];
      }
    }
  }

  /** The split loses nothing, adds nothing and separates exactly; splitting again changes nothing. */
  lemma CallerSplitIsStable(outbox: seq<Outbound>)
    ensures multiset(Callers(outbox)) + multiset(Others(outbox)) == multiset(outbox)
    ensures forall out :: out in Callers(outbox) <==> out in outbox && IsCaller(out)
    ensures forall out :: out in Others(outbox) <==> out in outbox && !IsCaller(out)
    ensures Callers(Others(outbox)) == [] && Others(Callers(outbox)) == []
  {
    SplitConserves(outbox);
    SplitSeparates(outbox);
  }

  lemma {:induction false} SplitConserves(outbox: seq<Outbound>)
    ensures multiset(Callers(outbox)) + multiset(Others(outbox)) == multiset(outbox)
  {
    if outbox != [] {
      var front, out := outbox[..|outbox| - 1], outbox[|outbox| - 1];
      SplitConserves(front);
      assert outbox == front + [out];
    }
  }

  lemma {:induction false} SplitSeparates(outbox: seq<Outbound>)
    ensures forall out :: out in Callers(outbox) <==> out in outbox && IsCaller(out)
    ensures forall out :: out in Others(outbox) <==> out in outbox && !IsCaller(out)
    ensures Callers(Others(outbox)) == [] && Others(Callers(outbox)) == []
  {
    if outbox != [] {
      var front, out := outbox[..|outbox| - 1], outbox[|outbox| - 1];
      SplitSeparates(front);
      LastIn(outbox);
      if IsCaller(out) {
        assert (Callers(front) + [out])[..|Callers(front)|] == Callers(front);
      } else {
        assert (Others(front) + [out])[..|Others(front)|] == Others(front);
      }
    }
  }

  // ---------------------------------------------------------------- the node

  class Node {
    const me: Contact
    var chats: map<Contact, Chat>
    var routes: Routes
    var held: seq<HeldSend>
    var outbox: seq<Outbound>
    var pendingControl: seq<PendingControl>
    var heldBackoff: map<Contact, Backoff>
    var background: bool
    var awaitingReceipt: seq<AwaitingReceipt>
    ghost var holdLog: seq<Frame>

    ghost function View(): State
      reads this
    {
      State(me, chats, routes, held, outbox, pendingControl, heldBackoff, background, awaitingReceipt, holdLog)
    }

    constructor (me: Contact, routes: Routes)
      ensures View() == State(me, map[], routes, [], [], [], map[], false, [], [])
    {
      this.me, this.routes := me, routes;
      chats, held, outbox, pendingControl := map[], [], [], [];
      heldBackoff, background, awaitingReceipt, holdLog := map[], false, [], [];
    }

    method HoldMessage(c: Contact, msg: Option<MsgId>, bytes: Frame)
      modifies this`held, this`holdLog
      ensures View() == Hold(old(View()), c, msg, bytes)
    {
      held := held + [HeldSend(c, msg, bytes, false)];
      holdLog := holdLog + [bytes];
    }

    method SendOrQueue(send: DetachedSend, route: Route, done: Done)
      modifies this`outbox
      ensures View() == Queue(old(View()), send, route, done)
    {
      outbox := outbox + [Outbound(send, route, done)];
    }

    function DetachFor(c: Contact, address: string, bytes: Frame, fresh_: bool): DetachedSend
      reads this
      ensures DetachFor(c, address, bytes, fresh_) == DetachTo(View(), c, address, bytes, fresh_)
    {
      if c in chats then Detach(routes, chats[c].mailbox, chats[c].peer, c, address, bytes, fresh_)
      else Detach(routes, None, None, c, address, bytes, fresh_)
    }

    predicate IsOutdated(c: Contact)
      reads this
      ensures IsOutdated(c) == Outdated(View(), c)
    {
      c in chats && chats[c].outdated
    }

    predicate Routed(c: Contact)
      reads this
      ensures Routed(c) == HasRoute(View(), c)
    {
      c in chats && RouteTo(routes, chats[c].mailbox, chats[c].peer) != NOWHERE
    }

    predicate RetryDue(c: Contact, now: nat)
      reads this
      ensures RetryDue(c, now) == MayRetry(View(), c, now)
    {
      !IsOutdated(c) && (Routed(c) || c !in heldBackoff || now >= heldBackoff[c].next)
    }

    method DeliverWith(address: string, c: Contact, bytes: Frame, fresh_: bool, done: Done)
      modifies this
      ensures View() == Deliver(old(View()), address, c, bytes, fresh_, done)
    {
      var version := done.Announced? && done.kind.Version?;
      if !version && IsOutdated(c) {
        if done.OneOff() {
          HoldMessage(c, None, bytes);
        }
        return;
      }
      SendOrQueue(DetachFor(c, address, bytes, fresh_), DirectThenRelay, done);
    }

    method TakeOutbox() returns (all: seq<Outbound>)
      modifies this`outbox
      ensures all == old(outbox) && outbox == []
    {
      all, outbox := outbox, [];
    }

    method TakeCallerOutbox() returns (mine: seq<Outbound>)
      modifies this`outbox
      ensures mine == Callers(old(outbox)) && outbox == Others(old(outbox))
    {
      var all := outbox;
      mine, outbox := [], [];
      for i := 0 to |all|
        invariant mine == Callers(all[..i]) && outbox == Others(all[..i])
      {
        assert all[..i + 1][..i] == all[..i];
        if IsCaller(all[i]) {
          mine := mine + [all[i]];
        } else {
          outbox := outbox + [all[i]];
        }
      }
      assert all[..|all|] == all;
    }

    /** First pass of a flush: which entries go. `busy` lists the unrouted contacts already seen. */
    method PlanFlush(only: Option<Contact>, now: nat) returns (going: seq<nat>)
      ensures going == Going(View(), only, now, |held|)
    {
      going := [];
      var busy: seq<Contact> := [];
      for i := 0 to |held|
        invariant going == Going(View(), only, now, i)
        invariant forall c :: c in busy <==>
                    (only.None? || only.value == c) && !IsOutdated(c) && !Routed(c)
                    && exists j :: 0 <= j < i && held[j].contact == c
      {
        var h := held[i];
        if (only.None? || only.value == h.contact) && !IsOutdated(h.contact) {
          if Routed(h.contact) {
            if !h.inFlight {
              going := going + [i];
            }
          } else if h.contact !in busy {
            assert Oldest(held, i);
            busy := busy + [h.contact];
            if !h.inFlight && RetryDue(h.contact, now) {
              going := going + [i];
            }
          } else {
            assert !Oldest(held, i);
          }
        }
      }
    }

    /** Second pass: each planned entry is marked and queued, by the index the first pass found. */
    method SendPlanned(going: seq<nat>, directFirst: bool)
      requires forall k :: 0 <= k < |going| ==> going[k] < |held|
      modifies this`held, this`outbox
      ensures View() == old(View()).(held := Marked(old(held), going),
                                     outbox := old(outbox) + HeldOutbounds(old(View()), going, directFirst))
    {
      ghost var before := View();
      for k := 0 to |going|
        invariant held == Marked(before.held, going[..k])
        invariant outbox == before.outbox + HeldOutbounds(before, going[..k], directFirst)
      {
        var i := going[k];
        MarkedStep(before, going, k, directFirst);
        var c, bytes := held[i].contact, held[i].bytes;
        held := held[i := held[i].(inFlight := true)];
        var address := if c in chats then chats[c].address else "";
        var route := if Routed(c) && !directFirst then RelayOnly else DirectThenRelay;
        SendOrQueue(DetachFor(c, address, bytes, true), route, Held(bytes));
        assert outbox[|outbox| - 1] == HeldOutbound(before, i, directFirst);
      }
      assert going[..|going|] == going;
    }

    method FlushHeldFor(only: Option<Contact>, directFirst: bool, now: nat)
      modifies this`held, this`outbox
      ensures View() == FlushHeld(old(View()), only, directFirst, now)
    {
      held := KeepOpen(held, chats);
      var going := PlanFlush(only, now);
      GoingExact(View(), only, now, |held|);
      SendPlanned(going, directFirst);
    }

    method QueuePendingControl(p: PendingControl, route: Route)
      modifies this`pendingControl, this`outbox
      ensures View() == QueueControl(old(View()), p, route)
    {
      var marked := p.(inFlight := true);
      var send := PendingSend(marked);
      pendingControl := pendingControl + [marked];
      SendOrQueue(send, route, Control(p.bytes));
    }

    function PendingSend(p: PendingControl): DetachedSend
      reads this
      ensures PendingSend(p) == DetachPending(View(), p)
    {
      var (primary, peerRelays) := if p.handle == "" then NOWHERE else PostRoute(routes, p.peer);
      DetachedSend(primary, peerRelays, Some(p.recipient), p.handle, p.peerAddress, p.bytes, false)
    }

    predicate IsDue(only: Option<Contact>, now: nat, p: PendingControl)
      reads this
      ensures IsDue(only, now, p) == ControlDue(View(), only, now, p)
    {
      && !p.inFlight
      && (only.None? || only.value == p.recipient)
      && (!PendingSend(p).Relayless() || RetryDue(p.recipient, now))
    }

    /** First pass: mark what is due and collect it by its sealed bytes. */
    method MarkDueControl(only: Option<Contact>, now: nat) returns (due: seq<Frame>)
      modifies this`pendingControl
      ensures View() == old(View()).(pending := MarkDue(old(View()), only, now))
      ensures SendsOf(old(View()), due) == ControlOutbounds(old(View()), only, now, |old(pendingControl)|)
    {
      var marked;
      due, marked := CollectDue(only, now);
      pendingControl := marked;
    }

    method CollectDue(only: Option<Contact>, now: nat) returns (due: seq<Frame>, marked: seq<PendingControl>)
      ensures marked == MarkDue(View(), only, now)
      ensures SendsOf(View(), due) == ControlOutbounds(View(), only, now, |pendingControl|)
    {
      ghost var s := View();
      due, marked := [], [];
      for i := 0 to |pendingControl|
        invariant View() == s && marked == MarkDue(s, only, now)[..i]
        invariant SendsOf(s, due) == ControlOutbounds(s, only, now, i)
      {
        var p := pendingControl[i];
        MarkDueMore(s, only, now, i);
        if IsDue(only, now, p) {
          SendsOfMore(s, due, p.bytes);
          due, marked := due + [p.bytes], marked + [p.(inFlight := true)];
        } else {
          marked := marked + [p];
        }
      }
    }

    /** Second pass: send each collected frame by the entry that now carries it. */
    method SendDueControl(due: seq<Frame>, ghost before: State, ghost only: Option<Contact>, ghost now: nat)
      requires View() == before.(pending := MarkDue(before, only, now))
      modifies this`outbox
      ensures View() == old(View()).(outbox := old(outbox) + SendsOf(before, due))
    {
      ghost var marked, sent := pendingControl, [];
      for i := 0 to |due|
        invariant sent == due[..i] && outbox == old(outbox) + SendsOf(before, sent)
        invariant View() == before.(pending := marked, outbox := outbox)
      {
        SendControl(due[i], before, marked, only, now);
        SendsOfMore(before, sent, due[i]);
        sent := sent + [due[i]];
      }
      assert sent == due;
    }

    method SendControl(bytes: Frame, ghost before: State, ghost marked: seq<PendingControl>,
                       ghost only: Option<Contact>, ghost now: nat)
      requires View() == before.(pending := marked, outbox := outbox) && marked == MarkDue(before, only, now)
      modifies this`outbox
      ensures outbox == old(outbox) + ControlOutbound(before, bytes)
    {
      MarkingKeepsFinds(before, only, now, bytes);
      FindControlExact(pendingControl, bytes);
      var found := FindControl(pendingControl, bytes);
      if found.Some? {
        SendOrQueue(PendingSend(pendingControl[found.value]), RelayThenDirect, Control(bytes));
      }
    }

    method FlushPendingControlFor(only: Option<Contact>, now: nat)
      modifies this`pendingControl, this`outbox
      ensures View() == FlushControl(old(View()), only, now)
    {
      ghost var before := View();
      var due := MarkDueControl(only, now);
      SendDueControl(due, before, only, now);
    }

    method HeldRetryFailed(c: Contact, now: nat)
      modifies this`heldBackoff
      ensures View() == RetryFailed(old(View()), c, now)
    {
      var cap := if background then HELD_RETRY_CAP_BACKGROUND_SECS else HELD_RETRY_CAP_OPEN_SECS;
      var delay := HELD_RETRY_FIRST_SECS;
      if c in heldBackoff {
        delay := heldBackoff[c].delay * 2;
        if delay > cap {
          delay := cap;
        }
      }
      heldBackoff := heldBackoff[c := Backoff(delay, now + delay)];
    }

    method HeardFrom(c: Contact, now: nat)
      modifies this
      ensures View() == Heard(old(View()), c, now)
    {
      var waited := c in heldBackoff;
      heldBackoff := heldBackoff - {c};
      if waited || (exists h :: h in held && h.contact == c) || (exists p :: p in pendingControl && p.recipient == c) {
        FlushHeldFor(Some(c), true, now);
        FlushPendingControlFor(Some(c), now);
      }
    }

    method RecordReceipts(c: Contact, msg: MsgId, copies: seq<QueuedReceipt>)
      modifies this`chats
      ensures View() == Record(old(View()), c, msg, copies)
    {
      if c in chats {
        chats := chats[c := chats[c].(receipts := chats[c].receipts[msg := copies])];
      }
    }

    method ApplyHeld(bytes: Frame, delivery: Delivery, now: nat)
      modifies this
      ensures View() == HeldDone(old(View()), bytes, delivery, now)
    {
      FindHeldExact(held, bytes);
      var found := FindHeld(held, bytes);
      if found.None? {
        return;
      }
      var i := found.value;
      if delivery.Failed? {
        held := held[i := held[i].(inFlight := false)];
        return;
      }
      var h := held[i];
      held := held[..i] + held[i + 1..];
      if delivery.Relay? && h.msg.Some? {
        RecordReceipts(h.contact, h.msg.value, delivery.copies);
      }
      if delivery.Direct? {
        if h.msg.Some? {
          awaitingReceipt := awaitingReceipt + [AwaitingReceipt(h.contact, h.msg.value, now)];
        }
        FlushHeldFor(Some(h.contact), true, now);
      }
    }

    method ApplyControl(bytes: Frame, delivered: bool)
      modifies this`pendingControl
      ensures View() == ControlDone(old(View()), bytes, delivered)
    {
      FindControlExact(pendingControl, bytes);
      if delivered {
        pendingControl := WithoutControl(pendingControl, bytes);
      } else {
        var found := FindControl(pendingControl, bytes);
        if found.Some? {
          pendingControl := pendingControl[found.value := pendingControl[found.value].(inFlight := false)];
        }
      }
    }

    /** What every finished send does before its own effect: the retry clock, and the rescue of a one-off frame. */
    method Settle(f: Finished, now: nat)
      modifies this
      ensures View() == Rescued(Clocked(old(View()), f, now), f)
    {
      if f.recipient.Some? && f.recipient.value != me {
        if f.delivery.Direct? {
          heldBackoff := heldBackoff - {f.recipient.value};
        } else if f.delivery.Failed? && f.relayless {
          HeldRetryFailed(f.recipient.value, now);
        }
      }
      if f.delivery.Failed? && f.relayless && f.done.OneOff() && f.recipient.Some?
         && f.recipient.value in chats && !chats[f.recipient.value].closed {
        HoldMessage(f.recipient.value, None, f.bytes);
      }
    }

    method ApplyOutbound(finished: seq<Finished>, now: nat)
      modifies this
      ensures View() == Apply(old(View()), finished, now)
    {
      for i := 0 to |finished|
        invariant Apply(View(), finished[i..], now) == Apply(old(View()), finished, now)
      {
        var f := finished[i];
        assert finished[i..][0] == f && finished[i..][1..] == finished[i + 1..];
        Settle(f, now);
        match f.done {
          case Nothing =>
          case Caller(record) =>
            if record.Some? && f.delivery.Relay? {
              RecordReceipts(record.value.0, record.value.1, f.delivery.copies);
            }
          case Announced(_, _) =>
          case Control(bytes) =>
            ApplyControl(bytes, !f.delivery.Failed?);
          case Held(bytes) =>
            ApplyHeld(bytes, f.delivery, now);
          case Unconfirmed(a) =>
            if f.delivery.Relay? {
              RecordReceipts(a.contact, a.msg, f.delivery.copies + [HANDED_DIRECTLY]);
            } else {
              awaitingReceipt := awaitingReceipt + [if f.delivery.Direct? then a.(since := now) else a];
            }
          case Cover =>
        }
      }
    }
  }

  function Heard(s: State, c: Contact, now: nat): State {
    var reset := s.(backoff := s.backoff - {c});
    if c in s.backoff || (exists h :: h in s.held && h.contact == c) || (exists p :: p in s.pending && p.recipient == c)
    then FlushControl(FlushHeld(reset, Some(c), true, now), Some(c), now)
    else reset
  }

  function SendsOf(s: State, due: seq<Frame>): seq<Outbound> {
    if due == [] then [] else SendsOf(s, due[..|due| - 1]) + ControlOutbound(s, due[|due| - 1])
  }

  lemma MarkDueMore(s: State, only: Option<Contact>, now: nat, i: nat)
    requires i < |s.pending|
    ensures var p := s.pending[i];
      MarkDue(s, only, now)[..i + 1]
      == MarkDue(s, only, now)[..i] + [if ControlDue(s, only, now, p) then p.(inFlight := true) else p]
  {
  }

  lemma SendsOfMore(s: State, due: seq<Frame>, b: Frame)
    ensures SendsOf(s, due + [b]) == SendsOf(s, due) + ControlOutbound(s, b)
  {
    assert (due + [b])[..|due|] == due;
  }

  /** Marking entries in flight moves none of them and changes no frame's routing. */
  lemma MarkingKeepsFinds(s: State, only: Option<Contact>, now: nat, bytes: Frame)
    ensures var marked := MarkDue(s, only, now);
      && FindControl(marked, bytes) == FindControl(s.pending, bytes)
      && (FindControl(s.pending, bytes).Some? ==>
            var i := FindControl(s.pending, bytes).value;
            i < |s.pending| && DetachPending(s, marked[i]) == DetachPending(s, s.pending[i]))
  {
    FindControlExact(s.pending, bytes);
    FindControlExact(MarkDue(s, only, now), bytes);
    var a, b := FindControl(s.pending, bytes), FindControl(MarkDue(s, only, now), bytes);
    if a.Some? {
      assert MarkDue(s, only, now)[a.value] in MarkDue(s, only, now);
    }
    if b.Some? {
      assert s.pending[b.value] in s.pending;
    }
  }
}
