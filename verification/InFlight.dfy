/**
 * The delivery machine, step by step: the node, the batch the poller is running, the sends API calls took, and what the
 * network took. What is in flight in it agrees with what is marked, after every step.
 */
module InFlight {
  import opened Wrappers
  import opened Posting
  import opened Outbox

  /** An API call's own entry, run and applied by the call itself. */
  datatype ApiCall = ApiCall(out: Outbound, delivery: Option<Delivery>)

  /**
   * The node, the poller's running batch with the results it has so far, the API calls' own entries,
   * and history: what the network took, in order, and every frame ever sealed.
   */
  datatype System = System(
    node: State,
    job: seq<Outbound>,
    results: seq<Delivery>,
    calls: set<ApiCall>,
    delivered: seq<Outbound>,
    sealed: set<Frame>)

  /** Everything on its way by the poller, in the order it will run. */
  function Traffic(s: System): seq<Outbound> {
    s.job + s.node.outbox
  }

  // ---------------------------------------------------------------- hold order

  /** When a frame was first put in the held queue. */
  function Ticket(log: seq<Frame>, b: Frame): nat {
    if log == [] then 0
    else if b in log[..|log| - 1] then Ticket(log[..|log| - 1], b)
    else |log| - 1
  }

  lemma {:induction false} TicketExact(log: seq<Frame>, b: Frame)
    requires b in log
    ensures Ticket(log, b) < |log| && log[Ticket(log, b)] == b
  {
    if b in log[..|log| - 1] {
      TicketExact(log[..|log| - 1], b);
    }
  }

  lemma TicketGrows(log: seq<Frame>, x: Frame)
    requires x !in log
    ensures forall b :: b in log ==> Ticket(log + [x], b) == Ticket(log, b) < |log|
    ensures Ticket(log + [x], x) == |log|
  {
    assert (log + [x])[..|log|] == log;
    forall b | b in log ensures Ticket(log, b) < |log| {
      TicketExact(log, b);
    }
  }

  /** The held queue is in hold order, so no frame is in it twice. */
  ghost predicate Ordered(log: seq<Frame>, held: seq<HeldSend>) {
    && (forall h :: h in held ==> h.bytes in log)
    && (forall i, j :: 0 <= i < j < |held| ==> Ticket(log, held[i].bytes) < Ticket(log, held[j].bytes))
  }

  // ---------------------------------------------------------------- in-flight coherence

  predicate HeldFor(out: Outbound, h: HeldSend) {
    out.done == Held(h.bytes) && out.send.recipient == Some(h.contact) && out.send.bytes == h.bytes
  }

  predicate ControlFor(out: Outbound, p: PendingControl) {
    out.done == Control(p.bytes) && out.send.recipient == Some(p.recipient) && out.send.bytes == p.bytes
  }

  /** Sends whose frame has one home: the held queue, the control queue, or this send alone. */
  predicate Claims(out: Outbound) {
    out.done.OneOff() || out.done.Held? || out.done.Control?
  }

  ghost predicate Unique(t: seq<Outbound>) {
    forall i, j :: 0 <= i < j < |t| && Claims(t[i]) && Claims(t[j]) ==> t[i].send.bytes != t[j].send.bytes
  }

  /** A held entry is marked exactly when a send of it is on its way. */
  ghost predicate HeldFlight(held: seq<HeldSend>, t: seq<Outbound>) {
    && (forall h :: h in held && h.inFlight ==> exists out :: out in t && HeldFor(out, h))
    && (forall h,
        out :: h in held && out in t && out.done.Held? && out.send.bytes == h.bytes ==> h.inFlight && HeldFor(out, h))
  }

  ghost predicate ControlFlight(pending: seq<PendingControl>, t: seq<Outbound>) {
    && (forall i, j :: 0 <= i < j < |pending| ==> pending[i].bytes != pending[j].bytes)
    && (forall p :: p in pending && p.inFlight ==> exists out :: out in t && ControlFor(out, p))
    && (forall p, out :: p in pending && out in t && out.done.Control? && out.send.bytes == p.bytes ==>
          p.inFlight && ControlFor(out, p))
  }

  /** Which frames each kind of send may carry. */
  ghost predicate Homes(log: seq<Frame>, pending: seq<PendingControl>, t: seq<Outbound>) {
    && (forall p :: p in pending ==> p.bytes !in log)
    && (forall out :: out in t && out.done.Held? ==> out.done.bytes == out.send.bytes && out.send.bytes in log)
    && (forall out :: out in t && out.done.Control? ==> out.done.bytes == out.send.bytes && out.send.bytes !in log)
    && (forall out :: out in t && out.done.OneOff() ==> out.send.bytes !in log)
    && (forall out, p :: out in t && out.done.OneOff() && p in pending ==> out.send.bytes != p.bytes)
  }

  ghost predicate CallsApart(calls: set<ApiCall>, s: State, t: seq<Outbound>) {
    && (forall a :: a in calls ==> a.out.done.Caller? && a.out.send.bytes !in s.holdLog)
    && (forall a, b :: a in calls && b in calls && a.out.send.bytes == b.out.send.bytes ==> a == b)
    && (forall a, out :: a in calls && out in t && Claims(out) ==> a.out.send.bytes != out.send.bytes)
    && (forall a, p :: a in calls && p in s.pending ==> a.out.send.bytes != p.bytes)
  }

  ghost predicate AllSealed(s: System) {
    && (forall b :: b in s.node.holdLog ==> b in s.sealed)
    && (forall p :: p in s.node.pending ==> p.bytes in s.sealed)
    && (forall out :: out in Traffic(s) && Claims(out) ==> out.send.bytes in s.sealed)
    && (forall a :: a in s.calls ==> a.out.send.bytes in s.sealed)
  }

  ghost predicate Coherent(s: System) {
    && |s.results| <= |s.job|
    && Ordered(s.node.holdLog, s.node.held)
    && Unique(Traffic(s))
    && HeldFlight(s.node.held, Traffic(s))
    && ControlFlight(s.node.pending, Traffic(s))
    && Homes(s.node.holdLog, s.node.pending, Traffic(s))
    && CallsApart(s.calls, s.node, Traffic(s))
    && AllSealed(s)
  }

  // ---------------------------------------------------------------- how a flush keeps it

  lemma {:induction false} KeepOpenExact(held: seq<HeldSend>, chats: map<Contact, Chat>)
    ensures forall h :: h in KeepOpen(held, chats) <==> h in held && h.contact in chats && !chats[h.contact].closed
  {
    if held != [] {
      KeepOpenExact(held[..|held| - 1], chats);
      LastIn(held);
    }
  }

  lemma OrderedFront(log: seq<Frame>, held: seq<HeldSend>)
    requires Ordered(log, held) && held != []
    ensures Ordered(log, held[..|held| - 1]) && held[|held| - 1].bytes in log
    ensures forall g :: g in held[..|held| - 1] ==> Ticket(log, g.bytes) < Ticket(log, held[|held| - 1].bytes)
  {
    LastIn(held);
    var front := held[..|held| - 1];
    forall i | 0 <= i < |front| ensures front[i] == held[i] {
    }
  }

  lemma OrderedPlus(log: seq<Frame>, held: seq<HeldSend>, h: HeldSend)
    requires Ordered(log, held) && h.bytes in log
    requires forall g :: g in held ==> Ticket(log, g.bytes) < Ticket(log, h.bytes)
    ensures Ordered(log, held + [h])
  {
    forall i | 0 <= i < |held| ensures Ticket(log, held[i].bytes) < Ticket(log, h.bytes) {
      assert held[i] in held;
    }
  }

  lemma {:induction false} KeepOpenOrdered(held: seq<HeldSend>, chats: map<Contact, Chat>, log: seq<Frame>)
    requires Ordered(log, held)
    ensures Ordered(log, KeepOpen(held, chats))
  {
    if held != [] {
      var front, h := held[..|held| - 1], held[|held| - 1];
      OrderedFront(log, held);
      KeepOpenOrdered(front, chats, log);
      KeepOpenExact(front, chats);
      OrderedPlus(log, KeepOpen(front, chats), h);
    }
  }

  lemma PruneKeepsCoherent(s: System)
    requires Coherent(s)
    ensures Coherent(s.(node := Prune(s.node)))
  {
    KeepOpenExact(s.node.held, s.node.chats);
    KeepOpenOrdered(s.node.held, s.node.chats, s.node.holdLog);
    var s' := s.(node := Prune(s.node));
    assert Traffic(s') == Traffic(s);
  }

  /** `held'` and `outs` are `held` with some idle entries marked, and one send for each of those, in order. */
  ghost predicate Launches(held: seq<HeldSend>, going: seq<nat>, held': seq<HeldSend>, outs: seq<Outbound>) {
    && |held'| == |held|
    && |outs| == |going|
    && (forall k :: 0 <= k < |going| ==>
          going[k] < |held| && !held[going[k]].inFlight && HeldFor(outs[k], held[going[k]]))
    && (forall k, l :: 0 <= k < l < |going| ==> going[k] < going[l])
    && (forall i :: 0 <= i < |held| ==> held'[i] == held[i] || held'[i] == held[i].(inFlight := true))
    && (forall i :: 0 <= i < |held| && i !in going ==> held'[i] == held[i])
    && (forall k :: 0 <= k < |going| ==> held'[going[k]].inFlight)
  }

  lemma FlushLaunches(p: State, only: Option<Contact>, directFirst: bool, now: nat)
    ensures var going := Going(p, only, now, |p.held|);
      (forall k :: 0 <= k < |going| ==> going[k] < |p.held|)
      && Launches(p.held, going, Marked(p.held, going), HeldOutbounds(p, going, directFirst))
  {
    var going := Going(p, only, now, |p.held|);
    GoingExact(p, only, now, |p.held|);
    forall k | 0 <= k < |going|
      ensures HeldFor(HeldOutbounds(p, going, directFirst)[k], p.held[going[k]]) && !p.held[going[k]].inFlight
    {
      var h := p.held[going[k]];
      DetachedIsRouted(p, h.contact, AddressOf(p, h.contact), h.bytes, true);
      assert going[k] in going;
    }
  }

  lemma LaunchOrdered(log: seq<Frame>, held: seq<HeldSend>, going: seq<nat>, held': seq<HeldSend>, outs: seq<Outbound>)
    requires Ordered(log, held) && Launches(held, going, held', outs)
    ensures Ordered(log, held')
    ensures forall out :: out in outs ==> out.done.Held? && out.done.bytes == out.send.bytes && out.send.bytes in log
  {
    forall i | 0 <= i < |held| ensures held[i].bytes in log {
      assert held[i] in held;
    }
  }

  lemma LaunchUnique(log: seq<Frame>, held: seq<HeldSend>, going: seq<nat>, held': seq<HeldSend>, outs: seq<Outbound>,
                     t: seq<Outbound>)
    requires Ordered(log, held) && Unique(t) && HeldFlight(held, t) && Launches(held, going, held', outs)
    requires forall out :: out in t && Claims(out) && !out.done.Held? ==> out.send.bytes !in log
    ensures Unique(t + outs)
  {
    var t' := t + outs;
    forall i, j | 0 <= i < j < |t'| && Claims(t'[i]) && Claims(t'[j])
      ensures t'[i].send.bytes != t'[j].send.bytes
    {
      if j >= |t| {
        var h := held[going[j - |t|]];
        assert h in held;
        if i < |t| {
          assert t[i] in t;
        } else {
          assert Ticket(log, held[going[i - |t|]].bytes) < Ticket(log, h.bytes);
        }
      }
    }
  }

  lemma LaunchMarked(held: seq<HeldSend>, going: seq<nat>, held': seq<HeldSend>, outs: seq<Outbound>, t: seq<Outbound>,
                     i: nat)
    requires i < |held| && HeldFlight(held, t) && Launches(held, going, held', outs) && held'[i].inFlight
    ensures exists out :: out in t + outs && HeldFor(out, held'[i])
  {
    if i in going {
      var k :| 0 <= k < |going| && going[k] == i;
      assert outs[k] in t + outs;
    } else {
      assert held[i] in held;
      var out :| out in t && HeldFor(out, held[i]);
      assert out in t + outs;
    }
  }

  lemma LaunchMatched(log: seq<Frame>, held: seq<HeldSend>, going: seq<nat>, held': seq<HeldSend>, outs: seq<Outbound>,
                      i: nat, k: nat)
    requires i < |held| && k < |outs| && Ordered(log, held) && Launches(held, going, held', outs)
    requires outs[k].send.bytes == held'[i].bytes
    ensures held'[i].inFlight && HeldFor(outs[k], held'[i])
  {
    assert held[going[k]].bytes == held[i].bytes;
    assert going[k] == i;
  }

  lemma LaunchFlight(log: seq<Frame>, held: seq<HeldSend>, going: seq<nat>, held': seq<HeldSend>, outs: seq<Outbound>,
                     t: seq<Outbound>)
    requires Ordered(log, held) && HeldFlight(held, t) && Launches(held, going, held', outs)
    ensures HeldFlight(held', t + outs)
  {
    forall h | h in held' && h.inFlight ensures exists out :: out in t + outs && HeldFor(out, h) {
      var i :| 0 <= i < |held'| && held'[i] == h;
      LaunchMarked(held, going, held', outs, t, i);
    }
    forall h, out | h in held' && out in t + outs && out.done.Held? && out.send.bytes == h.bytes
      ensures h.inFlight && HeldFor(out, h)
    {
      var i :| 0 <= i < |held'| && held'[i] == h;
      if out in t {
        assert held[i] in held;
      } else {
        var k :| 0 <= k < |outs| && outs[k] == out;
        LaunchMatched(log, held, going, held', outs, i, k);
      }
    }
  }

  lemma HeldSendsKeepControl(pending: seq<PendingControl>, t: seq<Outbound>, outs: seq<Outbound>)
    requires ControlFlight(pending, t) && forall out :: out in outs ==> out.done.Held?
    ensures ControlFlight(pending, t + outs)
  {
    forall p | p in pending && p.inFlight ensures exists out :: out in t + outs && ControlFor(out, p) {
      var out :| out in t && ControlFor(out, p);
      assert out in t + outs;
    }
  }

  lemma HeldSendsKeepHomes(log: seq<Frame>, pending: seq<PendingControl>, t: seq<Outbound>, outs: seq<Outbound>)
    requires Homes(log, pending, t)
    requires forall out :: out in outs ==> out.done.Held? && out.done.bytes == out.send.bytes && out.send.bytes in log
    ensures Homes(log, pending, t + outs)
  {
    assert forall out :: out in t + outs ==> out in t || out in outs;
  }

  lemma LaunchKeepsCoherent(s: System, going: seq<nat>, held': seq<HeldSend>, outs: seq<Outbound>)
    requires Coherent(s) && Launches(s.node.held, going, held', outs)
    ensures Coherent(s.(node := s.node.(held := held', outbox := s.node.outbox + outs)))
  {
    var s' := s.(node := s.node.(held := held', outbox := s.node.outbox + outs));
    var log, t := s.node.holdLog, Traffic(s);
    assert Traffic(s') == t + outs;
    LaunchOrdered(log, s.node.held, going, held', outs);
    LaunchUnique(log, s.node.held, going, held', outs, t);
    LaunchFlight(log, s.node.held, going, held', outs, t);
    HeldSendsKeepControl(s.node.pending, t, outs);
    HeldSendsKeepHomes(log, s.node.pending, t, outs);
    assert forall out :: out in t + outs ==> out in t || out in outs;
    assert CallsApart(s'.calls, s'.node, t + outs);
  }

  lemma FlushKeepsCoherent(s: System, only: Option<Contact>, directFirst: bool, now: nat)
    requires Coherent(s)
    ensures Coherent(s.(node := FlushHeld(s.node, only, directFirst, now)))
  {
    PruneKeepsCoherent(s);
    var p := Prune(s.node);
    var going := Going(p, only, now, |p.held|);
    FlushLaunches(p, only, directFirst, now);
    LaunchKeepsCoherent(s.(node := p), going, Marked(p.held, going), HeldOutbounds(p, going, directFirst));
  }

  // ---------------------------------------------------------------- how the other steps keep it

  /** No queue, send or call carries `b`. */
  ghost predicate Free(s: System, b: Frame) {
    && b !in s.node.holdLog
    && (forall p :: p in s.node.pending ==> p.bytes != b)
    && (forall out :: out in Traffic(s) && Claims(out) ==> out.send.bytes != b)
    && (forall a :: a in s.calls ==> a.out.send.bytes != b)
  }

  lemma SealedFreshIsFree(s: System, b: Frame)
    requires AllSealed(s) && b !in s.sealed
    ensures Free(s, b)
  {
  }

  lemma OrderedGrows(log: seq<Frame>, held: seq<HeldSend>, h: HeldSend)
    requires Ordered(log, held) && h.bytes !in log
    ensures Ordered(log + [h.bytes], held + [h])
  {
    TicketGrows(log, h.bytes);
    forall i | 0 <= i < |held| ensures held[i].bytes in log {
      assert held[i] in held;
    }
  }

  lemma HoldKeepsCoherent(s: System, c: Contact, msg: Option<MsgId>, b: Frame)
    requires Coherent(s) && Free(s, b) && b in s.sealed
    ensures Coherent(s.(node := Hold(s.node, c, msg, b)))
  {
    var h := HeldSend(c, msg, b, false);
    var s' := s.(node := Hold(s.node, c, msg, b));
    assert Traffic(s') == Traffic(s);
    OrderedGrows(s.node.holdLog, s.node.held, h);
    assert forall g :: g in s.node.held + [h] <==> g in s.node.held || g == h;
    assert forall x :: x in s.node.holdLog + [b] <==> x in s.node.holdLog || x == b;
    assert HeldFlight(s.node.held + [h], Traffic(s));
    assert Homes(s.node.holdLog + [b], s.node.pending, Traffic(s));
    assert CallsApart(s.calls, s'.node, Traffic(s));
  }

  /** Queueing a send that is not a retry of an entry. */
  lemma QueueKeepsCoherent(s: System, out: Outbound)
    requires Coherent(s) && !out.done.Held? && !out.done.Control?
    requires Claims(out) ==> Free(s, out.send.bytes) && out.send.bytes in s.sealed
    ensures Coherent(s.(node := s.node.(outbox := s.node.outbox + [out])))
  {
    var s' := s.(node := s.node.(outbox := s.node.outbox + [out]));
    var t := Traffic(s);
    assert Traffic(s') == t + [out];
    assert forall x :: x in t + [out] <==> x in t || x == out;
    if Claims(out) {
      AppendUnique(t, out);
    }
    assert HeldFlight(s.node.held, t + [out]);
    assert ControlFlight(s.node.pending, t + [out]);
    assert Homes(s.node.holdLog, s.node.pending, t + [out]);
  }

  lemma QueueControlKeepsCoherent(s: System, p: PendingControl, route: Route)
    requires Coherent(s) && Free(s, p.bytes) && p.bytes in s.sealed
    ensures Coherent(s.(node := QueueControl(s.node, p, route)))
  {
    var marked := p.(inFlight := true);
    var out := Outbound(DetachPending(s.node, marked), route, Control(p.bytes));
    assert ControlFor(out, marked);
    AddControlKeepsCoherent(s, marked, out);
  }

  lemma AddControlKeepsCoherent(s: System, p: PendingControl, out: Outbound)
    requires Coherent(s) && Free(s, p.bytes) && p.bytes in s.sealed && p.inFlight && ControlFor(out, p)
    ensures Coherent(s.(node := s.node.(pending := s.node.pending + [p], outbox := s.node.outbox + [out])))
  {
    var pending' := s.node.pending + [p];
    var s' := s.(node := s.node.(pending := pending', outbox := s.node.outbox + [out]));
    var t := Traffic(s);
    assert Traffic(s') == t + [out];
    AppendUnique(t, out);
    HeldFlightPasses(s.node.held, t, out);
    ControlFlightGrows(s.node.pending, t, p, out);
    HomesGrow(s.node.holdLog, s.node.pending, t, p, out);
    AddControlKeepsCalls(s, p, out);
  }

  lemma HeldFlightPasses(held: seq<HeldSend>, t: seq<Outbound>, out: Outbound)
    requires HeldFlight(held, t) && !out.done.Held?
    ensures HeldFlight(held, t + [out])
  {
    forall h | h in held && h.inFlight ensures exists x :: x in t + [out] && HeldFor(x, h) {
      var x :| x in t && HeldFor(x, h);
      assert x in t + [out];
    }
  }

  lemma HomesGrow(log: seq<Frame>, pending: seq<PendingControl>, t: seq<Outbound>, p: PendingControl, out: Outbound)
    requires Homes(log, pending, t) && ControlFor(out, p) && p.bytes !in log
    requires forall x :: x in t && Claims(x) ==> x.send.bytes != p.bytes
    ensures Homes(log, pending + [p], t + [out])
  {
    assert forall x :: x in t + [out] <==> x in t || x == out;
    assert forall q :: q in pending + [p] <==> q in pending || q == p;
  }

  lemma AddControlKeepsCalls(s: System, p: PendingControl, out: Outbound)
    requires Coherent(s) && Free(s, p.bytes) && p.bytes in s.sealed && ControlFor(out, p)
    ensures var s' := s.(node := s.node.(pending := s.node.pending + [p], outbox := s.node.outbox + [out]));
      CallsApart(s.calls, s'.node, Traffic(s')) && AllSealed(s')
  {
    var s' := s.(node := s.node.(pending := s.node.pending + [p], outbox := s.node.outbox + [out]));
    var t := Traffic(s);
    assert Traffic(s') == t + [out];
    assert forall x :: x in t + [out] <==> x in t || x == out;
    assert forall q :: q in s'.node.pending <==> q in s.node.pending || q == p;
  }

  lemma AppendUnique(t: seq<Outbound>, out: Outbound)
    requires Unique(t) && forall x :: x in t && Claims(x) ==> x.send.bytes != out.send.bytes
    ensures Unique(t + [out])
  {
    forall i | 0 <= i < |t| && Claims(t[i]) ensures t[i].send.bytes != out.send.bytes {
      assert t[i] in t;
    }
  }

  lemma ControlFlightGrows(pending: seq<PendingControl>, t: seq<Outbound>, p: PendingControl, out: Outbound)
    requires ControlFlight(pending, t) && p.inFlight && ControlFor(out, p)
    requires forall q :: q in pending ==> q.bytes != p.bytes
    requires forall x :: x in t && Claims(x) ==> x.send.bytes != p.bytes
    ensures ControlFlight(pending + [p], t + [out])
  {
    forall i | 0 <= i < |pending| ensures pending[i].bytes != p.bytes {
      assert pending[i] in pending;
    }
    forall q | q in pending + [p] && q.inFlight ensures exists x :: x in t + [out] && ControlFor(x, q) {
      if q == p {
        assert out in t + [out];
      } else {
        var x :| x in t && ControlFor(x, q);
        assert x in t + [out];
      }
    }
  }

  // A flush of the control queue: one send for each entry it marks.

  function DueControls(s: State, only: Option<Contact>, now: nat, n: nat): seq<nat>
    requires n <= |s.pending|
  {
    if n == 0 then []
    else if ControlDue(s, only, now, s.pending[n - 1]) then DueControls(s, only, now, n - 1) + [n - 1]
    else DueControls(s, only, now, n - 1)
  }

  ghost predicate ControlLaunches(pending: seq<PendingControl>, due: seq<nat>, pending': seq<PendingControl>,
                                  outs: seq<Outbound>)
  {
    && |pending'| == |pending|
    && |outs| == |due|
    && (forall k :: 0 <= k < |due| ==>
          due[k] < |pending| && !pending[due[k]].inFlight && ControlFor(outs[k], pending[due[k]]))
    && (forall k, l :: 0 <= k < l < |due| ==> due[k] < due[l])
    && (forall i :: 0 <= i < |pending| ==> pending'[i] == pending[i].(inFlight := pending[i].inFlight || i in due))
  }

  ghost predicate DistinctControls(pending: seq<PendingControl>) {
    forall j, k :: 0 <= j < k < |pending| ==> pending[j].bytes != pending[k].bytes
  }

  lemma FindsItself(pending: seq<PendingControl>, i: nat)
    requires i < |pending| && DistinctControls(pending)
    ensures FindControl(pending, pending[i].bytes) == Some(i)
  {
    FindControlExact(pending, pending[i].bytes);
    assert pending[i] in pending;
  }

  function ControlRetry(s: State, p: PendingControl): Outbound {
    Outbound(DetachPending(s, p), RelayThenDirect, Control(p.bytes))
  }

  lemma ControlRetryCarries(s: State, i: nat)
    requires i < |s.pending| && DistinctControls(s.pending)
    ensures ControlOutbound(s, s.pending[i].bytes) == [ControlRetry(s, s.pending[i])]
    ensures ControlFor(ControlRetry(s, s.pending[i]), s.pending[i])
  {
    FindsItself(s.pending, i);
  }

  lemma {:induction false} ControlSends(s: State, only: Option<Contact>, now: nat, n: nat)
    requires n <= |s.pending| && DistinctControls(s.pending)
    ensures var due := DueControls(s, only, now, n);
      && (forall k :: 0 <= k < |due| ==> due[k] < n)
      && ControlOutbounds(s, only, now, n)
         == seq(|due|, k requires 0 <= k < |due| => ControlRetry(s, s.pending[due[k]]))
  {
    if n > 0 {
      ControlSends(s, only, now, n - 1);
      ControlRetryCarries(s, n - 1);
    }
  }

  lemma {:induction false} DueControlsExact(s: State, only: Option<Contact>, now: nat, n: nat)
    requires n <= |s.pending|
    ensures var due := DueControls(s, only, now, n);
      && (forall k :: 0 <= k < |due| ==> due[k] < n && ControlDue(s, only, now, s.pending[due[k]]))
      && (forall k, l :: 0 <= k < l < |due| ==> due[k] < due[l])
      && (forall i :: 0 <= i < n ==> (i in due <==> ControlDue(s, only, now, s.pending[i])))
  {
    if n > 0 {
      DueControlsExact(s, only, now, n - 1);
    }
  }

  lemma FlushControlLaunches(s: State, only: Option<Contact>, now: nat)
    requires DistinctControls(s.pending)
    ensures ControlLaunches(s.pending, DueControls(s, only, now, |s.pending|), MarkDue(s, only, now),
                            ControlOutbounds(s, only, now, |s.pending|))
  {
    var n := |s.pending|;
    var due := DueControls(s, only, now, n);
    ControlSends(s, only, now, n);
    DueControlsExact(s, only, now, n);
    forall k | 0 <= k < |due| ensures ControlFor(ControlOutbounds(s, only, now, n)[k], s.pending[due[k]]) {
      ControlRetryCarries(s, due[k]);
    }
  }

  lemma ControlLaunchMarked(pending: seq<PendingControl>, due: seq<nat>, pending': seq<PendingControl>,
                            outs: seq<Outbound>,
                            t: seq<Outbound>, i: nat)
    requires i < |pending| && ControlFlight(pending, t) && ControlLaunches(pending, due, pending', outs)
    requires pending'[i].inFlight
    ensures exists out :: out in t + outs && ControlFor(out, pending'[i])
  {
    if i in due {
      var k :| 0 <= k < |due| && due[k] == i;
      assert outs[k] in t + outs;
    } else {
      assert pending[i] in pending;
      var out :| out in t && ControlFor(out, pending[i]);
      assert out in t + outs;
    }
  }

  lemma ControlLaunchMatched(pending: seq<PendingControl>, due: seq<nat>, pending': seq<PendingControl>,
                             outs: seq<Outbound>, i: nat, k: nat)
    requires i < |pending| && k < |outs| && DistinctControls(pending) && ControlLaunches(pending, due, pending', outs)
    requires outs[k].send.bytes == pending'[i].bytes
    ensures pending'[i].inFlight && ControlFor(outs[k], pending'[i])
  {
    assert pending[due[k]].bytes == pending[i].bytes;
    assert due[k] == i;
  }

  lemma ControlLaunchFlight(pending: seq<PendingControl>, due: seq<nat>, pending': seq<PendingControl>,
                            outs: seq<Outbound>,
                            t: seq<Outbound>)
    requires ControlFlight(pending, t) && ControlLaunches(pending, due, pending', outs)
    ensures ControlFlight(pending', t + outs)
  {
    forall p | p in pending' && p.inFlight ensures exists out :: out in t + outs && ControlFor(out, p) {
      var i :| 0 <= i < |pending'| && pending'[i] == p;
      ControlLaunchMarked(pending, due, pending', outs, t, i);
    }
    forall p, out | p in pending' && out in t + outs && out.done.Control? && out.send.bytes == p.bytes
      ensures p.inFlight && ControlFor(out, p)
    {
      var i :| 0 <= i < |pending'| && pending'[i] == p;
      if out in t {
        assert pending[i] in pending;
      } else {
        var k :| 0 <= k < |outs| && outs[k] == out;
        ControlLaunchMatched(pending, due, pending', outs, i, k);
      }
    }
  }

  lemma ControlLaunchUnique(s: System, due: seq<nat>, pending': seq<PendingControl>, outs: seq<Outbound>)
    requires Coherent(s) && ControlLaunches(s.node.pending, due, pending', outs)
    ensures Unique(Traffic(s) + outs)
  {
    var t, pending := Traffic(s), s.node.pending;
    forall i, j | 0 <= i < |t| && 0 <= j < |outs| && Claims(t[i]) ensures t[i].send.bytes != outs[j].send.bytes {
      assert t[i] in t && pending[due[j]] in pending;
    }
    forall i, j | 0 <= i < j < |outs| ensures outs[i].send.bytes != outs[j].send.bytes {
      assert due[i] < due[j];
    }
  }

  lemma FlushControlKeepsCoherent(s: System, only: Option<Contact>, now: nat)
    requires Coherent(s)
    ensures Coherent(s.(node := FlushControl(s.node, only, now)))
  {
    var n := |s.node.pending|;
    FlushControlLaunches(s.node, only, now);
    AddControlsKeepsCoherent(s, DueControls(s.node, only, now, n), MarkDue(s.node, only, now),
                             ControlOutbounds(s.node, only, now, n));
  }

  lemma AddControlsKeepsCoherent(s: System, due: seq<nat>, pending': seq<PendingControl>, outs: seq<Outbound>)
    requires Coherent(s) && ControlLaunches(s.node.pending, due, pending', outs)
    ensures Coherent(s.(node := s.node.(pending := pending', outbox := s.node.outbox + outs)))
  {
    var s' := s.(node := s.node.(pending := pending', outbox := s.node.outbox + outs));
    var t := Traffic(s);
    assert Traffic(s') == t + outs;
    ControlLaunchFlight(s.node.pending, due, pending', outs, t);
    ControlLaunchUnique(s, due, pending', outs);
    ControlLaunchCarries(s.node.pending, due, pending', outs);
    ControlSendsKeepRest(s, pending', outs);
  }

  ghost function ControlFrames(pending: seq<PendingControl>): set<Frame> {
    set p | p in pending :: p.bytes
  }

  lemma ControlLaunchCarries(pending: seq<PendingControl>, due: seq<nat>, pending': seq<PendingControl>,
                             outs: seq<Outbound>)
    requires ControlLaunches(pending, due, pending', outs)
    ensures forall p :: p in pending' ==> p.bytes in ControlFrames(pending)
    ensures forall out :: out in outs ==>
              out.done == Control(out.send.bytes) && out.send.bytes in ControlFrames(pending)
  {
    forall i | 0 <= i < |pending'| ensures pending'[i].bytes in ControlFrames(pending) {
      assert pending[i] in pending;
    }
    forall k | 0 <= k < |outs|
      ensures outs[k].done == Control(outs[k].send.bytes) && outs[k].send.bytes in ControlFrames(pending)
    {
      assert pending[due[k]] in pending;
    }
  }

  lemma ControlSendsKeepRest(s: System, pending': seq<PendingControl>, outs: seq<Outbound>)
    requires Coherent(s)
    requires forall p :: p in pending' ==> p.bytes in ControlFrames(s.node.pending)
    requires forall out :: out in outs ==>
               out.done == Control(out.send.bytes) && out.send.bytes in ControlFrames(s.node.pending)
    ensures var s' := s.(node := s.node.(pending := pending', outbox := s.node.outbox + outs));
      && HeldFlight(s.node.held, Traffic(s) + outs)
      && Homes(s.node.holdLog, pending', Traffic(s) + outs)
      && CallsApart(s.calls, s'.node, Traffic(s) + outs)
      && AllSealed(s')
  {
    var s' := s.(node := s.node.(pending := pending', outbox := s.node.outbox + outs));
    var t := Traffic(s);
    assert Traffic(s') == t + outs;
    assert forall out :: out in t + outs <==> out in t || out in outs;
    assert HeldFlight(s.node.held, t + outs);
    assert Homes(s.node.holdLog, pending', t + outs);
    assert CallsApart(s.calls, s'.node, t + outs);
  }

  // ---------------------------------------------------------------- how applying a result keeps it

  predicate SameQueues(a: State, b: State) {
    a.held == b.held && a.outbox == b.outbox && a.pending == b.pending && a.holdLog == b.holdLog
  }

  lemma SameQueuesKeepCoherent(s: System, node: State)
    requires Coherent(s) && SameQueues(s.node, node)
    ensures Coherent(s.(node := node))
  {
    assert Traffic(s.(node := node)) == Traffic(s);
  }

  /** The batch's first result, taken off to be applied. */
  function Popped(s: System): System
    requires s.job != [] && s.results != []
  {
    s.(job := s.job[1..], results := s.results[1..])
  }

  lemma PoppedTraffic(s: System)
    requires s.job != [] && s.results != []
    ensures Traffic(s) != [] && Traffic(s)[0] == s.job[0] && Traffic(Popped(s)) == Traffic(s)[1..]
    ensures forall out :: out in Traffic(s) <==> out == s.job[0] || out in Traffic(Popped(s))
  {
    assert Traffic(s) == [s.job[0]] + Traffic(Popped(s));
  }

  lemma UniqueTail(t: seq<Outbound>)
    requires Unique(t) && t != []
    ensures Unique(t[1..])
    ensures Claims(t[0]) ==> forall out :: out in t[1..] && Claims(out) ==> out.send.bytes != t[0].send.bytes
  {
    forall i | 0 <= i < |t| - 1 && Claims(t[0]) && Claims(t[1..][i]) ensures t[1..][i].send.bytes != t[0].send.bytes {
      assert t[1..][i] == t[i + 1];
    }
  }

  /** What is left of coherence once the first send is gone, whatever it was. */
  lemma PoppedKeeps(s: System)
    requires Coherent(s) && s.job != [] && s.results != []
    ensures var s' := Popped(s);
      && |s'.results| <= |s'.job|
      && Unique(Traffic(s'))
      && Homes(s.node.holdLog, s.node.pending, Traffic(s'))
      && CallsApart(s.calls, s.node, Traffic(s'))
      && AllSealed(s')
  {
    PoppedTraffic(s);
    UniqueTail(Traffic(s));
  }

  /** With the first send gone, a held entry it was not for is marked as rightly as before. */
  lemma TailHeldFlight(held: seq<HeldSend>, held': seq<HeldSend>, t: seq<Outbound>)
    requires HeldFlight(held, t) && t != []
    requires forall h :: h in held' ==> (h in held && !HeldFor(t[0], h)) || !h.inFlight
    requires forall h, out :: h in held' && h !in held && out in t[1..] && out.done.Held? ==> out.send.bytes != h.bytes
    ensures HeldFlight(held', t[1..])
  {
    assert t == [t[0]] + t[1..];
    forall h | h in held' && h.inFlight ensures exists out :: out in t[1..] && HeldFor(out, h) {
      var out :| out in t && HeldFor(out, h);
      assert out in t[1..];
    }
  }

  lemma TailControlFlight(pending: seq<PendingControl>, pending': seq<PendingControl>, t: seq<Outbound>)
    requires ControlFlight(pending, t) && t != [] && DistinctControls(pending')
    requires forall p :: p in pending' ==> (p in pending && !ControlFor(t[0], p)) || !p.inFlight
    requires forall p, out :: p in pending' && p !in pending && out in t[1..] && out.done.Control? ==>
               out.send.bytes != p.bytes
    ensures ControlFlight(pending', t[1..])
  {
    assert t == [t[0]] + t[1..];
    forall p | p in pending' && p.inFlight ensures exists out :: out in t[1..] && ControlFor(out, p) {
      var out :| out in t && ControlFor(out, p);
      assert out in t[1..];
    }
  }

  lemma PopOtherKeepsCoherent(s: System)
    requires Coherent(s) && s.job != [] && s.results != []
    requires !s.job[0].done.Held? && !s.job[0].done.Control?
    ensures Coherent(Popped(s))
    ensures s.job[0].done.OneOff() ==> Free(Popped(s), s.job[0].send.bytes) && s.job[0].send.bytes in s.sealed
  {
    PoppedTraffic(s);
    PoppedKeeps(s);
    TailHeldFlight(s.node.held, s.node.held, Traffic(s));
    TailControlFlight(s.node.pending, s.node.pending, Traffic(s));
    if s.job[0].done.OneOff() {
      PoppedIsFree(s);
    }
  }

  lemma PoppedIsFree(s: System)
    requires Coherent(s) && s.job != [] && s.results != [] && s.job[0].done.OneOff()
    ensures Free(Popped(s), s.job[0].send.bytes) && s.job[0].send.bytes in s.sealed
  {
    PoppedTraffic(s);
    UniqueTail(Traffic(s));
    assert s.job[0] in Traffic(s);
  }

  lemma PopHeldOthersFlight(s: System, held': seq<HeldSend>)
    requires Coherent(s) && s.job != [] && s.results != [] && s.job[0].done.Held?
    requires forall h :: h in held' ==>
               (h in s.node.held && h.bytes != s.job[0].send.bytes) || (h.bytes == s.job[0].send.bytes && !h.inFlight)
    ensures HeldFlight(held', Traffic(Popped(s)))
    ensures ControlFlight(s.node.pending, Traffic(Popped(s)))
  {
    PoppedTraffic(s);
    UniqueTail(Traffic(s));
    TailHeldFlight(s.node.held, held', Traffic(s));
    TailControlFlight(s.node.pending, s.node.pending, Traffic(s));
  }

  lemma OrderedApart(log: seq<Frame>, held: seq<HeldSend>, i: nat)
    requires Ordered(log, held) && i < |held|
    ensures forall j :: 0 <= j < |held| && j != i ==> held[j].bytes != held[i].bytes
  {
    forall j | 0 <= j < |held| && j != i ensures held[j].bytes != held[i].bytes {
      if j < i {
        assert Ticket(log, held[j].bytes) < Ticket(log, held[i].bytes);
      } else {
        assert Ticket(log, held[i].bytes) < Ticket(log, held[j].bytes);
      }
    }
  }

  /** A retry that failed: its entry is idle again. */
  lemma PopHeldFailedKeepsCoherent(s: System, i: nat)
    requires Coherent(s) && s.job != [] && s.results != [] && s.job[0].done.Held?
    requires i < |s.node.held| && s.node.held[i].bytes == s.job[0].send.bytes
    ensures Coherent(Popped(s).(node := s.node.(held := s.node.held[i := s.node.held[i].(inFlight := false)])))
  {
    var held' := s.node.held[i := s.node.held[i].(inFlight := false)];
    var s' := Popped(s).(node := s.node.(held := held'));
    assert Traffic(s') == Traffic(Popped(s));
    PoppedKeeps(s);
    OrderedApart(s.node.holdLog, s.node.held, i);
    forall h | h in held'
      ensures (h in s.node.held && h.bytes != s.job[0].send.bytes) || (h.bytes == s.job[0].send.bytes && !h.inFlight)
      ensures h.bytes in s.node.holdLog
    {
      var j :| 0 <= j < |held'| && held'[j] == h;
      assert s.node.held[j] in s.node.held;
    }
    PopHeldOthersFlight(s, held');
  }

  /** A retry that arrived: its entry is gone. */
  lemma PopHeldArrivedKeepsCoherent(s: System, i: nat)
    requires Coherent(s) && s.job != [] && s.results != [] && s.job[0].done.Held?
    requires i < |s.node.held| && s.node.held[i].bytes == s.job[0].send.bytes
    ensures Coherent(Popped(s).(node := s.node.(held := s.node.held[..i] + s.node.held[i + 1..])))
  {
    var held' := s.node.held[..i] + s.node.held[i + 1..];
    var s' := Popped(s).(node := s.node.(held := held'));
    assert Traffic(s') == Traffic(Popped(s));
    PoppedKeeps(s);
    OrderedWithout(s.node.holdLog, s.node.held, i);
    PopHeldOthersFlight(s, held');
  }

  lemma OrderedWithout(log: seq<Frame>, held: seq<HeldSend>, i: nat)
    requires Ordered(log, held) && i < |held|
    ensures Ordered(log, held[..i] + held[i + 1..])
    ensures forall h :: h in held[..i] + held[i + 1..] ==> h in held && h.bytes != held[i].bytes && h.bytes in log
  {
    var held' := held[..i] + held[i + 1..];
    CutOut(held, i);
    OrderedApart(log, held, i);
    forall k | 0 <= k < |held'| ensures held'[k] in held && held'[k].bytes != held[i].bytes && held'[k].bytes in log {
      assert held'[k] == held[if k < i then k else k + 1];
    }
  }

  /** A retry whose entry is gone already: an orphan of a deleted chat. */
  lemma PopOrphanKeepsCoherent(s: System)
    requires Coherent(s) && s.job != [] && s.results != [] && s.job[0].done.Held?
    requires forall h :: h in s.node.held ==> h.bytes != s.job[0].send.bytes
    ensures Coherent(Popped(s))
  {
    PoppedKeeps(s);
    PopHeldOthersFlight(s, s.node.held);
  }

  lemma {:induction false} WithoutControlExact(pending: seq<PendingControl>, b: Frame)
    ensures forall p :: p in WithoutControl(pending, b) <==> p in pending && p.bytes != b
  {
    if pending != [] {
      WithoutControlExact(pending[..|pending| - 1], b);
      LastIn(pending);
    }
  }

  lemma {:induction false} WithoutControlDistinct(pending: seq<PendingControl>, b: Frame)
    requires DistinctControls(pending)
    ensures DistinctControls(WithoutControl(pending, b))
  {
    if pending != [] {
      var front, last := pending[..|pending| - 1], pending[|pending| - 1];
      WithoutControlDistinct(front, b);
      WithoutControlExact(front, b);
      DistinctPlus(front, WithoutControl(front, b), last);
    }
  }

  lemma DistinctPlus(front: seq<PendingControl>, kept: seq<PendingControl>, last: PendingControl)
    requires DistinctControls(kept) && forall p :: p in kept ==> p in front
    requires forall i :: 0 <= i < |front| ==> front[i].bytes != last.bytes
    ensures DistinctControls(kept + [last])
  {
    forall i | 0 <= i < |kept| ensures kept[i].bytes != last.bytes {
      assert kept[i] in front;
    }
  }

  lemma PopControlFlight(s: System, pending': seq<PendingControl>)
    requires Coherent(s) && s.job != [] && s.results != [] && s.job[0].done.Control? && DistinctControls(pending')
    requires forall p :: p in pending' ==>
               || (p in s.node.pending && p.bytes != s.job[0].send.bytes)
               || (p.bytes == s.job[0].send.bytes && !p.inFlight)
    ensures HeldFlight(s.node.held, Traffic(Popped(s)))
    ensures ControlFlight(pending', Traffic(Popped(s)))
  {
    PoppedTraffic(s);
    UniqueTail(Traffic(s));
    TailHeldFlight(s.node.held, s.node.held, Traffic(s));
    TailControlFlight(s.node.pending, pending', Traffic(s));
  }

  lemma PopControlKeepsCoherent(s: System, delivered: bool)
    requires Coherent(s) && s.job != [] && s.results != [] && s.job[0].done.Control?
    ensures Coherent(Popped(s).(node := ControlDone(s.node, s.job[0].done.bytes, delivered)))
  {
    var b := s.job[0].send.bytes;
    assert s.job[0] in Traffic(s);
    var node' := ControlDone(s.node, b, delivered);
    var s' := Popped(s).(node := node');
    assert Traffic(s') == Traffic(Popped(s));
    ControlDoneExact(s.node, b, delivered);
    PopControlFlight(s, node'.pending);
    ControlDoneKeepsRest(s, node'.pending);
    PoppedKeeps(s);
  }

  lemma ControlDoneExact(s: State, b: Frame, delivered: bool)
    requires DistinctControls(s.pending)
    ensures var pending' := ControlDone(s, b, delivered).pending;
      && ControlDone(s, b, delivered) == s.(pending := pending')
      && DistinctControls(pending')
      && (forall p :: p in pending' ==> (p in s.pending && p.bytes != b) || (p.bytes == b && !p.inFlight))
      && (forall p :: p in pending' ==> p.bytes in ControlFrames(s.pending))
  {
    var pending, pending' := s.pending, ControlDone(s, b, delivered).pending;
    if delivered {
      WithoutControlExact(pending, b);
      WithoutControlDistinct(pending, b);
    } else {
      FindControlExact(pending, b);
      forall j | 0 <= j < |pending'|
        ensures pending'[j].bytes == pending[j].bytes && pending[j] in pending
        ensures (pending'[j] in pending && pending'[j].bytes != b) || (pending'[j].bytes == b && !pending'[j].inFlight)
      {
      }
    }
  }

  lemma ControlDoneKeepsRest(s: System, pending': seq<PendingControl>)
    requires Coherent(s) && s.job != [] && s.results != []
    requires forall p :: p in pending' ==> p.bytes in ControlFrames(s.node.pending)
    ensures var s' := Popped(s).(node := s.node.(pending := pending'));
      && Homes(s.node.holdLog, pending', Traffic(s'))
      && CallsApart(s.calls, s'.node, Traffic(s'))
      && AllSealed(s')
  {
    var s' := Popped(s).(node := s.node.(pending := pending'));
    assert Traffic(s') == Traffic(Popped(s));
    PoppedTraffic(s);
    PoppedKeeps(s);
  }

  lemma ApplyHeldKeepsCoherent(s: System, now: nat)
    requires Coherent(s) && s.job != [] && s.results != [] && s.job[0].done.Held?
    ensures Coherent(Popped(s).(node := HeldDone(s.node, s.job[0].done.bytes, s.results[0], now)))
  {
    var b, d := s.job[0].send.bytes, s.results[0];
    assert s.job[0] in Traffic(s);
    FindHeldExact(s.node.held, b);
    var i := FindHeld(s.node.held, b);
    if i.None? {
      PopOrphanKeepsCoherent(s);
    } else if d.Failed? {
      PopHeldFailedKeepsCoherent(s, i.value);
    } else {
      PopHeldArrivedKeepsCoherent(s, i.value);
      var gone := Popped(s).(node := s.node.(held := s.node.held[..i.value] + s.node.held[i.value + 1..]));
      HeldArrivalKeepsCoherent(gone, s.node, i.value, d, now);
    }
  }

  lemma HeldArrivalKeepsCoherent(gone: System, node: State, i: nat, d: Delivery, now: nat)
    requires i < |node.held| && gone.node == node.(held := node.held[..i] + node.held[i + 1..])
    requires Coherent(gone) && !d.Failed?
    ensures Coherent(gone.(node := HeldArrived(node, i, d, now)))
  {
    var h := node.held[i];
    if d.Direct? {
      var waiting := if h.msg.None? then gone.node
                     else gone.node.(awaiting := gone.node.awaiting + [AwaitingReceipt(h.contact, h.msg.value, now)]);
      SameQueuesKeepCoherent(gone, waiting);
      FlushKeepsCoherent(gone.(node := waiting), Some(h.contact), true, now);
    } else if h.msg.Some? {
      SameQueuesKeepCoherent(gone, Record(gone.node, h.contact, h.msg.value, d.copies));
    }
  }

  lemma ApplyOneOffKeepsCoherent(s: System, f: Finished, now: nat)
    requires Coherent(s) && f.done.OneOff() && Free(s, f.bytes) && f.bytes in s.sealed
    ensures Coherent(s.(node := ApplyDone(Rescued(s.node, f), f.done, f.delivery, now)))
  {
    var rescued := s.(node := Rescued(s.node, f));
    if FallsBack(s.node, f) {
      HoldKeepsCoherent(s, f.recipient.value, None, f.bytes);
    }
    SameQueuesKeepCoherent(rescued, ApplyDone(rescued.node, f.done, f.delivery, now));
  }

  lemma ApplySettledKeepsCoherent(s: System, f: Finished, now: nat)
    requires Coherent(s) && s.job != [] && s.results != [] && f == Finish(s.job[0], s.results[0])
    ensures Coherent(Popped(s).(node := ApplyDone(Rescued(s.node, f), f.done, f.delivery, now)))
  {
    if f.done.Held? {
      ApplyHeldKeepsCoherent(s, now);
    } else if f.done.Control? {
      PopControlKeepsCoherent(s, !f.delivery.Failed?);
    } else {
      PopOtherKeepsCoherent(s);
      if f.done.OneOff() {
        PoppedIsFree(s);
        ApplyOneOffKeepsCoherent(Popped(s), f, now);
      } else {
        OtherDoneKeepsQueues(s.node, f.done, f.delivery, now);
        SameQueuesKeepCoherent(Popped(s), ApplyDone(s.node, f.done, f.delivery, now));
      }
    }
  }

  lemma OtherDoneKeepsQueues(s: State, done: Done, d: Delivery, now: nat)
    requires !done.Held? && !done.Control?
    ensures SameQueues(s, ApplyDone(s, done, d, now))
  {
  }

  lemma ApplyHeadKeepsCoherent(s: System, now: nat)
    requires Coherent(s) && s.job != [] && s.results != []
    ensures Coherent(Popped(s).(node := ApplyOne(s.node, Finish(s.job[0], s.results[0]), now)))
  {
    var f := Finish(s.job[0], s.results[0]);
    var clocked := s.(node := Clocked(s.node, f, now));
    SameQueuesKeepCoherent(s, clocked.node);
    ApplySettledKeepsCoherent(clocked, f, now);
    assert Popped(clocked).(node := ApplyDone(Rescued(clocked.node, f), f.done, f.delivery, now))
        == Popped(s).(node := ApplyOne(s.node, f, now));
  }

  // ---------------------------------------------------------------- the steps of a run

  function Finishes(job: seq<Outbound>, results: seq<Delivery>): seq<Finished>
    requires |results| == |job|
  {
    seq(|job|, i requires 0 <= i < |job| => Finish(job[i], results[i]))
  }

  function AllFailed(n: nat): seq<Delivery> {
    seq(n, i => Failed)
  }

  datatype Step =
    | HoldNew(contact: Contact, msg: Option<MsgId>, bytes: Frame)
    | DeliverNew(address: string, contact: Contact, bytes: Frame, fresh_: bool, done: Done)
    | ControlNew(pending: PendingControl, route: Route)
    | OtherNew(send: DetachedSend, route: Route, done: Done)
    | FlushHeldNow(only: Option<Contact>, directFirst: bool, now: nat)
    | FlushControlNow(only: Option<Contact>, now: nat)
    | HeardFromNow(contact: Contact, now: nat)
    | TakeAll
    | TakeCallers
    | RunNext(delivery: Delivery)
    | RunCall(call: ApiCall, delivery: Delivery)
    | ApplyRound(now: nat)
    | ApplyCall(call: ApiCall, now: nat)
    | AbandonRest(now: nat)
    | Elsewhere(chats: map<Contact, Chat>, routes: Routes, background: bool)

  predicate Enabled(s: System, step: Step) {
    match step
    case HoldNew(_, _, b) => b !in s.sealed
    case DeliverNew(_, _, b, _, done) => b !in s.sealed && (done.OneOff() || done.Announced?)
    case ControlNew(p, _) => p.bytes !in s.sealed
    case OtherNew(send, _, done) => send.bytes !in s.sealed && !done.Held? && !done.Control?
    case TakeAll => s.job == []
    case RunNext(d) =>
      |s.results| < |s.job| && Possible(s.job[|s.results|].send, s.job[|s.results|].route, d)
    case RunCall(a, d) => a in s.calls && a.delivery.None? && Possible(a.out.send, a.out.route, d)
    case ApplyRound(_) => s.job != [] && |s.results| == |s.job|
    case ApplyCall(a, _) => a in s.calls && a.delivery.Some?
    case AbandonRest(_) => s.job == []
    case _ => true
  }

  function Took(out: Outbound, d: Delivery, delivered: seq<Outbound>): seq<Outbound> {
    if d.Failed? then delivered else delivered + [out]
  }

  function Waiting(outs: seq<Outbound>): set<ApiCall> {
    set out | out in outs :: ApiCall(out, None)
  }

  function Do(s: System, step: Step): System
    requires Enabled(s, step) && |s.results| <= |s.job|
  {
    match step
    case HoldNew(c, msg, b) => s.(node := Hold(s.node, c, msg, b), sealed := s.sealed + {b})
    case DeliverNew(address, c, b, fresh_, done) =>
      s.(node := Deliver(s.node, address, c, b, fresh_, done), sealed := s.sealed + {b})
    case ControlNew(p, route) => s.(node := QueueControl(s.node, p, route), sealed := s.sealed + {p.bytes})
    case OtherNew(send, route, done) =>
      s.(node := Queue(s.node, send, route, done), sealed := s.sealed + {send.bytes})
    case FlushHeldNow(only, directFirst, now) => s.(node := FlushHeld(s.node, only, directFirst, now))
    case FlushControlNow(only, now) => s.(node := FlushControl(s.node, only, now))
    case HeardFromNow(c, now) => s.(node := Heard(s.node, c, now))
    case TakeAll => s.(node := s.node.(outbox := []), job := s.node.outbox, results := [])
    case TakeCallers =>
      s.(node := s.node.(outbox := Others(s.node.outbox)),
         calls := s.calls + Waiting(Callers(s.node.outbox)))
    case RunNext(d) =>
      s.(results := s.results + [d], delivered := Took(s.job[|s.results|], d, s.delivered))
    case RunCall(a, d) =>
      s.(calls := s.calls - {a} + {a.(delivery := Some(d))}, delivered := Took(a.out, d, s.delivered))
    case ApplyRound(now) =>
      s.(node := Apply(s.node, Finishes(s.job, s.results), now), job := [], results := [])
    case ApplyCall(a, now) =>
      s.(node := ApplyOne(s.node, Finish(a.out, a.delivery.value), now), calls := s.calls - {a})
    case AbandonRest(now) =>
      s.(node := Apply(s.node.(outbox := []), Finishes(s.node.outbox, AllFailed(|s.node.outbox|)), now))
    case Elsewhere(chats, routes, background) =>
      s.(node := s.node.(chats := chats, routes := routes, background := background))
  }

  // ---------------------------------------------------------------- every step keeps coherence

  lemma {:induction false} ApplyRoundKeepsCoherent(s: System, now: nat)
    requires Coherent(s) && |s.results| == |s.job|
    ensures Coherent(s.(node := Apply(s.node, Finishes(s.job, s.results), now), job := [], results := []))
    decreases |s.job|
  {
    if s.job != [] {
      ApplyHeadKeepsCoherent(s, now);
      var s' := Popped(s).(node := ApplyOne(s.node, Finish(s.job[0], s.results[0]), now));
      assert Finishes(s.job, s.results)[1..] == Finishes(s'.job, s'.results);
      ApplyRoundKeepsCoherent(s', now);
    }
  }

  /** The rest of the outbox as a batch that reached nobody. */
  function Abandoned(s: System): System {
    s.(node := s.node.(outbox := []), job := s.node.outbox, results := AllFailed(|s.node.outbox|))
  }

  lemma AbandonRestKeepsCoherent(s: System, now: nat)
    requires Coherent(s) && s.job == []
    ensures Coherent(Do(s, AbandonRest(now)))
  {
    assert Traffic(Abandoned(s)) == Traffic(s);
    ApplyRoundKeepsCoherent(Abandoned(s), now);
  }

  lemma {:induction false} OthersKeepUnique(before: seq<Outbound>, outbox: seq<Outbound>)
    requires Unique(before + outbox)
    ensures Unique(before + Others(outbox))
  {
    if outbox != [] {
      var front, last := outbox[..|outbox| - 1], outbox[|outbox| - 1];
      assert outbox == front + [last];
      assert (before + outbox)[..|before| + |front|] == before + front;
      UniqueFront(before + outbox);
      OthersKeepUnique(before, front);
      if !IsCaller(last) && Claims(last) {
        CallerSplitIsStable(front);
        var t := before + outbox;
        forall x | x in before + Others(front) && Claims(x) ensures x.send.bytes != last.send.bytes {
          assert x in before + front;
          var i :| 0 <= i < |before + front| && (before + front)[i] == x;
          assert t[i] == x && t[|t| - 1] == last;
        }
        AppendUnique(before + Others(front), last);
        assert before + Others(outbox) == before + Others(front) + [last];
      } else if !IsCaller(last) {
        assert before + Others(outbox) == before + Others(front) + [last];
      }
    }
  }

  lemma UniqueFront(t: seq<Outbound>)
    requires Unique(t) && t != []
    ensures Unique(t[..|t| - 1])
  {
  }

  /** Taking sends that are nobody's retry off the way leaves every mark right. */
  lemma ThinnedKeepsFlights(held: seq<HeldSend>, pending: seq<PendingControl>, log: seq<Frame>, t: seq<Outbound>,
                            t': seq<Outbound>)
    requires HeldFlight(held, t) && ControlFlight(pending, t) && Homes(log, pending, t)
    requires forall out :: out in t' ==> out in t
    requires forall out :: out in t && !out.done.Caller? ==> out in t'
    ensures HeldFlight(held, t') && ControlFlight(pending, t') && Homes(log, pending, t')
  {
    forall h | h in held && h.inFlight ensures exists out :: out in t' && HeldFor(out, h) {
      var out :| out in t && HeldFor(out, h);
      assert out in t';
    }
    forall p | p in pending && p.inFlight ensures exists out :: out in t' && ControlFor(out, p) {
      var out :| out in t && ControlFor(out, p);
      assert out in t';
    }
  }

  lemma UniqueParts(job: seq<Outbound>, outbox: seq<Outbound>, a: Outbound, out: Outbound)
    requires Unique(job + outbox) && a in outbox && Claims(a) && Claims(out) && a != out
    requires out in job || out in outbox
    ensures a.send.bytes != out.send.bytes
  {
    var t := job + outbox;
    var i :| 0 <= i < |outbox| && outbox[i] == a;
    assert t[|job| + i] == a;
    if out in job {
      var j :| 0 <= j < |job| && job[j] == out;
      assert t[j] == out;
    } else {
      var j :| 0 <= j < |outbox| && outbox[j] == out;
      assert t[|job| + j] == out;
    }
  }

  lemma UniqueCallerGone(job: seq<Outbound>, outbox: seq<Outbound>, a: Outbound)
    requires Unique(job + outbox) && a in outbox && Claims(a)
    ensures a !in job
  {
    var t := job + outbox;
    var i :| 0 <= i < |outbox| && outbox[i] == a;
    assert t[|job| + i] == a;
    forall j | 0 <= j < |job| ensures job[j] != a {
      assert t[j] == job[j];
    }
  }

  lemma TakenCallsApart(s: System, mine: set<ApiCall>, others: seq<Outbound>)
    requires Coherent(s)
    requires forall a :: a in mine <==> a.delivery.None? && a.out in s.node.outbox && a.out.done.Caller?
    requires forall out :: out in others <==> out in s.node.outbox && !out.done.Caller?
    ensures CallsApart(s.calls + mine, s.node, s.job + others)
  {
    var t := Traffic(s);
    assert forall out :: out in t <==> out in s.job || out in s.node.outbox;
    assert forall out :: out in s.job + others <==> out in s.job || out in others;
    forall a, b | a in mine && b in mine && a.out.send.bytes == b.out.send.bytes ensures a == b {
      if a.out != b.out {
        UniqueParts(s.job, s.node.outbox, a.out, b.out);
      }
    }
    forall a, b | a in mine && b in s.calls ensures a.out.send.bytes != b.out.send.bytes {
      assert a.out in t;
    }
    forall a, out | a in mine && out in s.job + others && Claims(out) ensures a.out.send.bytes != out.send.bytes {
      UniqueCallerGone(s.job, s.node.outbox, a.out);
      UniqueParts(s.job, s.node.outbox, a.out, out);
    }
  }

  lemma TakenExact(outbox: seq<Outbound>)
    ensures forall a :: a in Waiting(Callers(outbox)) <==> a.delivery.None? && a.out in outbox && a.out.done.Caller?
    ensures forall out :: out in Others(outbox) <==> out in outbox && !out.done.Caller?
  {
    CallerSplitIsStable(outbox);
  }

  lemma TakeCallersKeepsCoherent(s: System)
    requires Coherent(s)
    ensures Coherent(Do(s, TakeCallers))
  {
    var outbox := s.node.outbox;
    OthersKeepUnique(s.job, outbox);
    TakenExact(outbox);
    MoveCallersKeepsCoherent(s, Waiting(Callers(outbox)), Others(outbox));
  }

  lemma MoveCallersKeepsCoherent(s: System, mine: set<ApiCall>, others: seq<Outbound>)
    requires Coherent(s) && Unique(s.job + others)
    requires forall a :: a in mine <==> a.delivery.None? && a.out in s.node.outbox && a.out.done.Caller?
    requires forall out :: out in others <==> out in s.node.outbox && !out.done.Caller?
    ensures Coherent(s.(node := s.node.(outbox := others), calls := s.calls + mine))
  {
    var s' := s.(node := s.node.(outbox := others), calls := s.calls + mine);
    var t, t' := Traffic(s), s.job + others;
    assert Traffic(s') == t';
    assert forall out :: out in t' ==> out in t;
    assert forall out :: out in t && !out.done.Caller? ==> out in t';
    ThinnedKeepsFlights(s.node.held, s.node.pending, s.node.holdLog, t, t');
    TakenCallsApart(s, mine, others);
    assert CallsApart(s'.calls, s'.node, t');
    assert forall a :: a in mine ==> a.out in t;
  }

  lemma RunCallKeepsCoherent(s: System, a: ApiCall, d: Delivery)
    requires Coherent(s) && Enabled(s, RunCall(a, d))
    ensures Coherent(Do(s, RunCall(a, d)))
  {
    var s' := Do(s, RunCall(a, d));
    assert Traffic(s') == Traffic(s);
    assert forall b :: b in s'.calls ==> b in s.calls || b == a.(delivery := Some(d));
    assert CallsApart(s'.calls, s'.node, Traffic(s'));
  }

  lemma ApplyCallKeepsCoherent(s: System, a: ApiCall, now: nat)
    requires Coherent(s) && Enabled(s, ApplyCall(a, now))
    ensures Coherent(Do(s, ApplyCall(a, now)))
  {
    var rest := s.(calls := s.calls - {a});
    var f := Finish(a.out, a.delivery.value);
    assert Traffic(rest) == Traffic(s);
    var clocked := rest.(node := Clocked(s.node, f, now));
    SameQueuesKeepCoherent(rest, clocked.node);
    assert Traffic(clocked) == Traffic(s);
    assert Free(clocked, f.bytes);
    ApplyOneOffKeepsCoherent(clocked, f, now);
  }

  lemma SealMoreKeepsCoherent(s: System, b: Frame)
    requires Coherent(s)
    ensures Coherent(s.(sealed := s.sealed + {b}))
    ensures b !in s.sealed ==> Free(s.(sealed := s.sealed + {b}), b)
  {
    assert Traffic(s.(sealed := s.sealed + {b})) == Traffic(s);
  }

  lemma NewFrameKeepsCoherent(s: System, step: Step)
    requires Coherent(s) && Enabled(s, step)
    requires step.HoldNew? || step.DeliverNew? || step.ControlNew? || step.OtherNew?
    ensures Coherent(Do(s, step))
  {
    match step {
      case HoldNew(c, msg, b) =>
        SealMoreKeepsCoherent(s, b);
        HoldKeepsCoherent(s.(sealed := s.sealed + {b}), c, msg, b);
      case DeliverNew(address, c, b, fresh_, done) =>
        SealMoreKeepsCoherent(s, b);
        var sealed := s.(sealed := s.sealed + {b});
        DetachedIsRouted(s.node, c, address, b, fresh_);
        if Deliver(s.node, address, c, b, fresh_, done) == Hold(s.node, c, None, b) {
          HoldKeepsCoherent(sealed, c, None, b);
        } else if Deliver(s.node, address, c, b, fresh_, done) != s.node {
          QueueKeepsCoherent(sealed, Outbound(DetachTo(s.node, c, address, b, fresh_), DirectThenRelay, done));
        }
      case ControlNew(p, route) =>
        SealMoreKeepsCoherent(s, p.bytes);
        QueueControlKeepsCoherent(s.(sealed := s.sealed + {p.bytes}), p, route);
      case OtherNew(send, route, done) =>
        SealMoreKeepsCoherent(s, send.bytes);
        QueueKeepsCoherent(s.(sealed := s.sealed + {send.bytes}), Outbound(send, route, done));
    }
  }

  lemma HeardKeepsCoherent(s: System, c: Contact, now: nat)
    requires Coherent(s)
    ensures Coherent(s.(node := Heard(s.node, c, now)))
  {
    var reset := s.node.(backoff := s.node.backoff - {c});
    SameQueuesKeepCoherent(s, reset);
    FlushKeepsCoherent(s.(node := reset), Some(c), true, now);
    FlushControlKeepsCoherent(s.(node := FlushHeld(reset, Some(c), true, now)), Some(c), now);
  }

  lemma StepKeepsCoherent(s: System, step: Step)
    requires Coherent(s) && Enabled(s, step)
    ensures Coherent(Do(s, step))
  {
    if step.HoldNew? || step.DeliverNew? || step.ControlNew? || step.OtherNew? {
      NewFrameKeepsCoherent(s, step);
    } else {
      OldFrameKeepsCoherent(s, step);
    }
  }

  lemma OldFrameKeepsCoherent(s: System, step: Step)
    requires Coherent(s) && Enabled(s, step)
    requires !step.HoldNew? && !step.DeliverNew? && !step.ControlNew? && !step.OtherNew?
    ensures Coherent(Do(s, step))
  {
    match step {
      case FlushHeldNow(only, directFirst, now) => FlushKeepsCoherent(s, only, directFirst, now);
      case FlushControlNow(only, now) => FlushControlKeepsCoherent(s, only, now);
      case HeardFromNow(c, now) => HeardKeepsCoherent(s, c, now);
      case TakeAll => assert Traffic(Do(s, step)) == Traffic(s);
      case TakeCallers => TakeCallersKeepsCoherent(s);
      case RunNext(_) => assert Traffic(Do(s, step)) == Traffic(s);
      case RunCall(a, d) => RunCallKeepsCoherent(s, a, d);
      case ApplyRound(now) => ApplyRoundKeepsCoherent(s, now);
      case ApplyCall(a, now) => ApplyCallKeepsCoherent(s, a, now);
      case AbandonRest(now) => AbandonRestKeepsCoherent(s, now);
      case Elsewhere(_, _, _) => SameQueuesKeepCoherent(s, Do(s, step).node);
    }
  }
}
