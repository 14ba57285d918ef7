/**
 * No frame is lost: it stays owed until it is delivered or its chat is closed, teardown included; and no send just
 * ends, with relays to go to or without.
 */
module NoLoss {
  import opened Wrappers
  import opened Posting
  import opened Outbox
  import opened InFlight
  import opened HoldOrder
  import opened Runs

  /** A one-off send of `b` to `c` with no relay to fall back on. */
  predicate OneOffTo(out: Outbound, c: Contact, b: Frame) {
    out.done.OneOff() && out.send.recipient == Some(c) && out.send.bytes == b && out.send.Relayless()
  }

  ghost predicate HeldEntry(s: System, c: Contact, b: Frame) {
    exists h :: h in s.node.held && h.contact == c && h.bytes == b
  }

  /** `b` is still ours to get to `c`: held, in the outbox, in the running batch, or with an API call. */
  ghost predicate Owed(s: System, c: Contact, b: Frame) {
    || HeldEntry(s, c, b)
    || (exists out :: out in Traffic(s) && OneOffTo(out, c, b))
    || (exists a :: a in s.calls && OneOffTo(a.out, c, b))
  }

  ghost predicate Delivered(s: System, c: Contact, b: Frame) {
    exists d :: d in s.delivered && d.send.recipient == Some(c) && d.send.bytes == b
  }

  /** A result that says a frame arrived is in the record of what the network took. */
  ghost predicate ResultsRecorded(s: System) {
    && (forall i :: 0 <= i < |s.results| && i < |s.job| && !s.results[i].Failed? ==> s.job[i] in s.delivered)
    && (forall a :: a in s.calls && a.delivery.Some? && !a.delivery.value.Failed? ==> a.out in s.delivered)
  }

  // ---------------------------------------------------------------- results are recorded

  lemma PoppedRecorded(s: System, node: State)
    requires ResultsRecorded(s) && s.job != [] && s.results != []
    ensures ResultsRecorded(Popped(s).(node := node))
  {
    var s' := Popped(s).(node := node);
    forall i | 0 <= i < |s'.results| && i < |s'.job| && !s'.results[i].Failed? ensures s'.job[i] in s'.delivered {
      assert s.job[i + 1] == s'.job[i] && s.results[i + 1] == s'.results[i];
    }
  }

  lemma StepKeepsRecorded(s: System, step: Step)
    requires ResultsRecorded(s) && |s.results| <= |s.job| && Enabled(s, step)
    ensures ResultsRecorded(Do(s, step))
    ensures s.delivered <= Do(s, step).delivered
  {
    var s' := Do(s, step);
    if step.RunNext? {
      forall i | 0 <= i < |s'.results| && !s'.results[i].Failed? ensures s'.job[i] in s'.delivered {
        if i < |s.results| {
          assert s'.results[i] == s.results[i];
        }
      }
    } else if step.RunCall? {
      forall a | a in s'.calls && a.delivery.Some? && !a.delivery.value.Failed? ensures a.out in s'.delivered {
        assert a in s.calls || a == step.call.(delivery := Some(step.delivery));
      }
    } else {
      assert forall a :: a in s'.calls && a.delivery.Some? ==> a in s.calls;
    }
  }

  // ---------------------------------------------------------------- a held frame stays held

  lemma FlushKeepsHeld(s: State, only: Option<Contact>, directFirst: bool, now: nat, h: HeldSend)
    requires h in s.held && OpenChat(s, h.contact)
    ensures exists g :: g in FlushHeld(s, only, directFirst, now).held && g.contact == h.contact && g.bytes == h.bytes
  {
    var p := Prune(s);
    KeepOpenExact(s.held, s.chats);
    var i :| 0 <= i < |p.held| && p.held[i] == h;
    assert FlushHeld(s, only, directFirst, now).held[i] in FlushHeld(s, only, directFirst, now).held;
  }

  lemma HeldDoneKeepsHeld(s: State, bytes: Frame, d: Delivery, now: nat, h: HeldSend)
    requires h in s.held && OpenChat(s, h.contact) && (h.bytes != bytes || d.Failed?)
    ensures exists g :: g in HeldDone(s, bytes, d, now).held && g.contact == h.contact && g.bytes == h.bytes
  {
    FindHeldExact(s.held, bytes);
    var found := FindHeld(s.held, bytes);
    if found.Some? {
      var i := found.value;
      var k := IndexOf(s.held, h);
      if d.Failed? {
        assert HeldDone(s, bytes, d, now).held[k] in HeldDone(s, bytes, d, now).held;
      } else {
        var held' := s.held[..i] + s.held[i + 1..];
        assert held'[if k < i then k else k - 1] == h;
        ArrivalKeepsHeld(s, i, d, now, h);
      }
    }
  }

  lemma IndexOf(held: seq<HeldSend>, h: HeldSend) returns (i: nat)
    requires h in held
    ensures i < |held| && held[i] == h
  {
    i :| 0 <= i < |held| && held[i] == h;
  }

  lemma ArrivalKeepsHeld(s: State, i: nat, d: Delivery, now: nat, h: HeldSend)
    requires i < |s.held| && h in s.held[..i] + s.held[i + 1..] && OpenChat(s, h.contact) && !d.Failed?
    ensures exists g :: g in HeldArrived(s, i, d, now).held && g.contact == h.contact && g.bytes == h.bytes
  {
    var e := s.held[i];
    var gone := s.(held := s.held[..i] + s.held[i + 1..]);
    if d.Direct? {
      var waiting := if e.msg.None? then gone
                     else gone.(awaiting := gone.awaiting + [AwaitingReceipt(e.contact, e.msg.value, now)]);
      FlushKeepsHeld(waiting, Some(e.contact), true, now, h);
    }
  }

  lemma ApplyOneKeepsHeld(s: State, f: Finished, now: nat, h: HeldSend)
    requires h in s.held && OpenChat(s, h.contact)
    requires f.done.Held? && f.done.bytes == h.bytes ==> f.delivery.Failed?
    ensures exists g :: g in ApplyOne(s, f, now).held && g.contact == h.contact && g.bytes == h.bytes
  {
    var settled := Rescued(Clocked(s, f, now), f);
    assert h in settled.held;
    if f.done.Held? {
      HeldDoneKeepsHeld(settled, f.done.bytes, f.delivery, now, h);
    } else {
      assert ApplyOne(s, f, now).held == settled.held;
    }
  }

  /** A one-off frame that failed is held from then on. */
  lemma FailedOneOffIsHeld(s: State, out: Outbound, now: nat, c: Contact)
    requires OneOffTo(out, c, out.send.bytes) && OpenChat(s, c)
    ensures exists g :: g in ApplyOne(s, Finish(out, Failed), now).held && g.contact == c && g.bytes == out.send.bytes
  {
    var f := Finish(out, Failed);
    var clocked := Clocked(s, f, now);
    assert FallsBack(clocked, f);
    assert ApplyOne(s, f, now).held == clocked.held + [HeldSend(c, None, f.bytes, false)];
    assert HeldSend(c, None, f.bytes, false) in ApplyOne(s, f, now).held;
  }

  // ---------------------------------------------------------------- one result applied

  ghost predicate Kept(s: System, c: Contact, b: Frame) {
    Owed(s, c, b) || Delivered(s, c, b)
  }

  lemma ApplyHeldOwed(s: System, c: Contact, b: Frame, now: nat)
    requires Coherent(s) && ResultsRecorded(s) && s.job != [] && s.results != []
    requires HeldEntry(s, c, b) && OpenChat(s.node, c)
    ensures Kept(Popped(s).(node := ApplyOne(s.node, Finish(s.job[0], s.results[0]), now)), c, b)
  {
    var h :| h in s.node.held && h.contact == c && h.bytes == b;
    var f := Finish(s.job[0], s.results[0]);
    var s' := Popped(s).(node := ApplyOne(s.node, f, now));
    PoppedTraffic(s);
    if f.done.Held? && f.done.bytes == b && !f.delivery.Failed? {
      assert s.job[0] in Traffic(s);
      assert HeldFor(s.job[0], h);
      assert s.job[0] in s'.delivered;
    } else {
      ApplyOneKeepsHeld(s.node, f, now, h);
      assert HeldEntry(s', c, b);
    }
  }

  lemma ApplyTrafficOwed(s: System, c: Contact, b: Frame, now: nat, out: Outbound)
    requires Coherent(s) && ResultsRecorded(s) && s.job != [] && s.results != []
    requires out in Traffic(s) && OneOffTo(out, c, b) && OpenChat(s.node, c)
    ensures Kept(Popped(s).(node := ApplyOne(s.node, Finish(s.job[0], s.results[0]), now)), c, b)
  {
    var f := Finish(s.job[0], s.results[0]);
    var s' := Popped(s).(node := ApplyOne(s.node, f, now));
    PoppedTraffic(s);
    if out == s.job[0] {
      if f.delivery.Failed? {
        FailedOneOffIsHeld(s.node, out, now, c);
        assert HeldEntry(s', c, b);
      } else {
        assert s.job[0] in s'.delivered;
      }
    } else {
      ApplyOneGrowsOutbox(s.node, f, now);
      TrafficGrows(Popped(s), ApplyOne(s.node, f, now), out);
    }
  }

  lemma TrafficGrows(s: System, node: State, out: Outbound)
    requires s.node.outbox <= node.outbox && out in Traffic(s)
    ensures out in Traffic(s.(node := node))
  {
    assert Traffic(s.(node := node)) == Traffic(s) + node.outbox[|s.node.outbox|..];
  }

  lemma FlushGrowsOutbox(s: State, only: Option<Contact>, directFirst: bool, now: nat)
    ensures s.outbox <= FlushHeld(s, only, directFirst, now).outbox
  {
  }

  lemma ApplyOneGrowsOutbox(s: State, f: Finished, now: nat)
    ensures s.outbox <= ApplyOne(s, f, now).outbox
    ensures f.delivery.Failed? ==> ApplyOne(s, f, now).outbox == s.outbox
  {
    var settled := Rescued(Clocked(s, f, now), f);
    assert settled.outbox == s.outbox;
    if f.done.Held? {
      HeldDoneGrowsOutbox(settled, f.done.bytes, f.delivery, now);
    } else {
      assert ApplyOne(s, f, now).outbox == settled.outbox;
    }
  }

  lemma HeldDoneGrowsOutbox(s: State, bytes: Frame, d: Delivery, now: nat)
    ensures s.outbox <= HeldDone(s, bytes, d, now).outbox
    ensures d.Failed? ==> HeldDone(s, bytes, d, now).outbox == s.outbox
  {
    FindHeldExact(s.held, bytes);
  }

  lemma ApplyHeadOwed(s: System, c: Contact, b: Frame, now: nat)
    requires Coherent(s) && ResultsRecorded(s) && s.job != [] && s.results != []
    requires Owed(s, c, b) && OpenChat(s.node, c)
    ensures Kept(Popped(s).(node := ApplyOne(s.node, Finish(s.job[0], s.results[0]), now)), c, b)
  {
    if HeldEntry(s, c, b) {
      ApplyHeldOwed(s, c, b, now);
    } else if exists out :: out in Traffic(s) && OneOffTo(out, c, b) {
      var out :| out in Traffic(s) && OneOffTo(out, c, b);
      ApplyTrafficOwed(s, c, b, now, out);
    }
  }

  lemma ApplyHeadKept(s: System, c: Contact, b: Frame, now: nat)
    requires Coherent(s) && ResultsRecorded(s) && s.job != [] && s.results != []
    requires Kept(s, c, b) && OpenChat(s.node, c)
    ensures Kept(Popped(s).(node := ApplyOne(s.node, Finish(s.job[0], s.results[0]), now)), c, b)
  {
    if Delivered(s, c, b) {
      assert Popped(s).delivered == s.delivered;
    } else {
      ApplyHeadOwed(s, c, b, now);
    }
  }

  lemma {:induction false} ApplyRoundOwed(s: System, c: Contact, b: Frame, now: nat)
    requires Coherent(s) && ResultsRecorded(s) && |s.results| == |s.job|
    requires Kept(s, c, b) && OpenChat(s.node, c)
    ensures Kept(s.(node := Apply(s.node, Finishes(s.job, s.results), now), job := [], results := []), c, b)
    decreases |s.job|
  {
    if s.job != [] {
      var f := Finish(s.job[0], s.results[0]);
      var s' := Popped(s).(node := ApplyOne(s.node, f, now));
      ApplyHeadKept(s, c, b, now);
      ApplyHeadKeepsCoherent(s, now);
      PoppedRecorded(s, s'.node);
      ApplyOneKeepsRoutes(s.node, f, now, c);
      assert Finishes(s.job, s.results)[1..] == Finishes(s'.job, s'.results);
      ApplyRoundOwed(s', c, b, now);
    }
  }

  // ---------------------------------------------------------------- every step

  lemma HeldStaysOwed(s: System, node: State, c: Contact, b: Frame)
    requires Owed(s, c, b)
    requires forall h :: h in s.node.held && h.contact == c && h.bytes == b ==>
               exists g :: g in node.held && g.contact == c && g.bytes == b
    requires s.node.outbox <= node.outbox
    ensures Owed(s.(node := node), c, b)
  {
    var s' := s.(node := node);
    if HeldEntry(s, c, b) {
      assert HeldEntry(s', c, b);
    } else if exists out :: out in Traffic(s) && OneOffTo(out, c, b) {
      var out :| out in Traffic(s) && OneOffTo(out, c, b);
      TrafficGrows(s, node, out);
    }
  }

  lemma FlushOwed(s: System, c: Contact, b: Frame, only: Option<Contact>, directFirst: bool, now: nat)
    requires Owed(s, c, b) && OpenChat(s.node, c)
    ensures Owed(s.(node := FlushHeld(s.node, only, directFirst, now)), c, b)
  {
    forall h | h in s.node.held && h.contact == c && h.bytes == b
      ensures exists g :: g in FlushHeld(s.node, only, directFirst, now).held && g.contact == c && g.bytes == b
    {
      FlushKeepsHeld(s.node, only, directFirst, now, h);
    }
    FlushGrowsOutbox(s.node, only, directFirst, now);
    HeldStaysOwed(s, FlushHeld(s.node, only, directFirst, now), c, b);
  }

  lemma HeardOwed(s: System, c: Contact, b: Frame, from: Contact, now: nat)
    requires Owed(s, c, b) && OpenChat(s.node, c)
    ensures Owed(s.(node := Heard(s.node, from, now)), c, b)
  {
    var reset := s.node.(backoff := s.node.backoff - {from});
    HeldStaysOwed(s, reset, c, b);
    FlushOwed(s.(node := reset), c, b, Some(from), true, now);
    var flushed := s.(node := FlushHeld(reset, Some(from), true, now));
    HeldStaysOwed(flushed, FlushControl(flushed.node, Some(from), now), c, b);
  }

  lemma TakeOwed(s: System, c: Contact, b: Frame, step: Step)
    requires Owed(s, c, b) && |s.results| <= |s.job| && Enabled(s, step) && (step.TakeAll? || step.TakeCallers?)
    ensures Owed(Do(s, step), c, b)
  {
    var s' := Do(s, step);
    if HeldEntry(s, c, b) {
      assert HeldEntry(s', c, b);
    } else if exists out :: out in Traffic(s) && OneOffTo(out, c, b) {
      var out :| out in Traffic(s) && OneOffTo(out, c, b);
      if step.TakeAll? {
        assert Traffic(s') == Traffic(s);
      } else {
        CallerSplitIsStable(s.node.outbox);
        if out in s.node.outbox && IsCaller(out) {
          assert ApiCall(out, None) in s'.calls;
        } else {
          assert out in Traffic(s');
        }
      }
    } else {
      var a :| a in s.calls && OneOffTo(a.out, c, b);
      assert a in s'.calls;
    }
  }

  lemma RunOwed(s: System, c: Contact, b: Frame, step: Step)
    requires Owed(s, c, b) && |s.results| <= |s.job| && Enabled(s, step) && (step.RunNext? || step.RunCall?)
    ensures Owed(Do(s, step), c, b)
  {
    var s' := Do(s, step);
    assert Traffic(s') == Traffic(s);
    if HeldEntry(s, c, b) {
      assert HeldEntry(s', c, b);
    } else if !(exists out :: out in Traffic(s) && OneOffTo(out, c, b)) {
      var a :| a in s.calls && OneOffTo(a.out, c, b);
      if step.RunCall? && a == step.call {
        assert a.(delivery := Some(step.delivery)) in s'.calls;
      } else {
        assert a in s'.calls;
      }
    }
  }

  lemma ApplyCallOwed(s: System, c: Contact, b: Frame, a: ApiCall, now: nat)
    requires Coherent(s) && ResultsRecorded(s) && Owed(s, c, b) && OpenChat(s.node, c) && Enabled(s, ApplyCall(a, now))
    ensures Kept(Do(s, ApplyCall(a, now)), c, b)
  {
    var f := Finish(a.out, a.delivery.value);
    var s' := Do(s, ApplyCall(a, now));
    if HeldEntry(s, c, b) {
      var h :| h in s.node.held && h.contact == c && h.bytes == b;
      ApplyOneKeepsHeld(s.node, f, now, h);
      assert HeldEntry(s', c, b);
    } else if exists out :: out in Traffic(s) && OneOffTo(out, c, b) {
      var out :| out in Traffic(s) && OneOffTo(out, c, b);
      ApplyOneGrowsOutbox(s.node, f, now);
      TrafficGrows(s, s'.node, out);
      assert Traffic(s') == Traffic(s.(node := s'.node));
    } else {
      var x :| x in s.calls && OneOffTo(x.out, c, b);
      if x != a {
        assert x in s'.calls;
      } else if f.delivery.Failed? {
        FailedOneOffIsHeld(s.node, a.out, now, c);
        assert HeldEntry(s', c, b);
      } else {
        assert a.out in s'.delivered;
      }
    }
  }

  lemma NewFrameOwed(s: System, c: Contact, b: Frame, step: Step)
    requires Owed(s, c, b) && |s.results| <= |s.job| && Enabled(s, step)
    requires step.HoldNew? || step.DeliverNew? || step.ControlNew? || step.OtherNew?
          || step.FlushControlNow? || step.Elsewhere?
    ensures Owed(Do(s, step), c, b)
  {
    var s' := Do(s, step);
    assert forall h :: h in s.node.held ==> h in s'.node.held;
    HeldStaysOwed(s, s'.node, c, b);
    assert Traffic(s') == Traffic(s.(node := s'.node));
  }

  lemma StepKeepsOwed(s: System, c: Contact, b: Frame, step: Step)
    requires Coherent(s) && ResultsRecorded(s) && Enabled(s, step) && Kept(s, c, b) && OpenChat(s.node, c)
    ensures Kept(Do(s, step), c, b)
  {
    StepKeepsRecorded(s, step);
    if Delivered(s, c, b) {
      var d :| d in s.delivered && d.send.recipient == Some(c) && d.send.bytes == b;
      assert d in Do(s, step).delivered;
    } else {
      match step {
        case FlushHeldNow(only, directFirst, now) => FlushOwed(s, c, b, only, directFirst, now);
        case HeardFromNow(from, now) => HeardOwed(s, c, b, from, now);
        case TakeAll => TakeOwed(s, c, b, step);
        case TakeCallers => TakeOwed(s, c, b, step);
        case RunNext(_) => RunOwed(s, c, b, step);
        case RunCall(_, _) => RunOwed(s, c, b, step);
        case ApplyRound(now) => ApplyRoundOwed(s, c, b, now);
        case ApplyCall(a, now) => ApplyCallOwed(s, c, b, a, now);
        case AbandonRest(now) => AbandonOwed(s, c, b, now);
        case _ => NewFrameOwed(s, c, b, step);
      }
    }
  }

  lemma AbandonOwed(s: System, c: Contact, b: Frame, now: nat)
    requires Coherent(s) && ResultsRecorded(s) && Owed(s, c, b) && OpenChat(s.node, c) && s.job == []
    ensures Kept(Do(s, AbandonRest(now)), c, b)
  {
    var abandoned := Abandoned(s);
    assert Traffic(abandoned) == Traffic(s);
    if HeldEntry(s, c, b) {
      assert HeldEntry(abandoned, c, b);
    }
    assert Coherent(abandoned);
    ApplyRoundOwed(abandoned, c, b, now);
  }

  // ---------------------------------------------------------------- whole runs

  /** A frame handed over for an open chat with no relay route is owed from then on. */
  lemma GivenFrameIsOwed(s: System, address: string, c: Contact, b: Frame, fresh_: bool, done: Done)
    requires |s.results| <= |s.job| && Enabled(s, DeliverNew(address, c, b, fresh_, done)) && done.OneOff()
    requires !HasRoute(s.node, c) || Outdated(s.node, c)
    ensures Owed(Do(s, DeliverNew(address, c, b, fresh_, done)), c, b)
  {
    var s' := Do(s, DeliverNew(address, c, b, fresh_, done));
    if Outdated(s.node, c) {
      assert HeldSend(c, None, b, false) in s'.node.held;
      assert HeldEntry(s', c, b);
    } else {
      DetachedIsRouted(s.node, c, address, b, fresh_);
      var out := Outbound(DetachTo(s.node, c, address, b, fresh_), DirectThenRelay, done);
      assert s'.node.outbox[|s.node.outbox|] == out;
      assert Traffic(s')[|Traffic(s)|] == out;
      assert OneOffTo(out, c, b);
    }
  }

  lemma {:induction false} RecordedEveryRun(states: seq<System>, steps: seq<Step>)
    requires IsRun(states, steps) && Launched(states[0])
    ensures ResultsRecorded(states[|steps|])
    decreases |steps|
  {
    if steps != [] {
      var n := |steps| - 1;
      assert steps[..n] + [steps[n]] == steps;
      RecordedEveryRun(states[..n + 1], steps[..n]);
      StepKeepsRecorded(states[n], steps[n]);
    }
  }

  /** From the moment it is owed, a frame stays owed or is delivered, for as long as its chat is open. */
  lemma {:induction false} NothingLost(states: seq<System>, steps: seq<Step>, i: nat, c: Contact, b: Frame)
    requires IsRun(states, steps) && Launched(states[0]) && i <= |steps|
    requires Owed(states[i], c, b)
    requires forall k :: i <= k < |steps| ==> OpenChat(states[k].node, c)
    ensures Owed(states[|steps|], c, b) || Delivered(states[|steps|], c, b)
    decreases |steps|
  {
    if i < |steps| {
      var n := |steps| - 1;
      assert steps[..n] + [steps[n]] == steps;
      NothingLost(states[..n + 1], steps[..n], i, c, b);
      CoherentEveryRun(states[..n + 1], steps[..n]);
      RecordedEveryRun(states[..n + 1], steps[..n]);
      StepKeepsOwed(states[n], c, b, steps[n]);
    }
  }

  // ---------------------------------------------------------------- any send, with relays or without

  predicate Carries(out: Outbound, c: Contact, b: Frame) {
    out.send.recipient == Some(c) && out.send.bytes == b
  }

  /** A send of `b` to `c` is queued, in the running batch, or with an API call. */
  ghost predicate UnderWay(s: System, c: Contact, b: Frame) {
    (exists out :: out in Traffic(s) && Carries(out, c, b)) || exists a :: a in s.calls && Carries(a.out, c, b)
  }

  /** The step applies a result that says a send of `b` to `c` failed. */
  ghost predicate ReportsFailed(s: System, step: Step, c: Contact, b: Frame)
    requires |s.results| <= |s.job|
  {
    exists f :: f in AppliedBy(s, step) && f.recipient == Some(c) && f.bytes == b && f.delivery.Failed?
  }

  /** Every frame for an up-to-date contact, whatever its routes, and any version announcement, is under way at once. */
  lemma GivenFrameIsUnderWay(s: System, address: string, c: Contact, b: Frame, fresh_: bool, done: Done)
    requires |s.results| <= |s.job| && Enabled(s, DeliverNew(address, c, b, fresh_, done))
    requires !Outdated(s.node, c) || (done.Announced? && done.kind.Version?)
    ensures UnderWay(Do(s, DeliverNew(address, c, b, fresh_, done)), c, b)
  {
    var s' := Do(s, DeliverNew(address, c, b, fresh_, done));
    DetachedIsRouted(s.node, c, address, b, fresh_);
    var out := Outbound(DetachTo(s.node, c, address, b, fresh_), DirectThenRelay, done);
    assert Traffic(s') == Traffic(s) + [out];
    assert out in Traffic(s') && Carries(out, c, b);
  }

  lemma {:induction false} ApplyGrowsOutbox(s: State, finished: seq<Finished>, now: nat)
    ensures s.outbox <= Apply(s, finished, now).outbox
    decreases |finished|
  {
    if finished != [] {
      ApplyOneGrowsOutbox(s, finished[0], now);
      ApplyGrowsOutbox(ApplyOne(s, finished[0], now), finished[1..], now);
    }
  }

  lemma RoundKeepsUnderWay(s: System, c: Contact, b: Frame, now: nat)
    requires ResultsRecorded(s) && Enabled(s, ApplyRound(now)) && UnderWay(s, c, b)
    ensures var s' := Do(s, ApplyRound(now));
      UnderWay(s', c, b) || Delivered(s', c, b) || ReportsFailed(s, ApplyRound(now), c, b)
  {
    var s' := Do(s, ApplyRound(now));
    assert s.job[..|s.results|] == s.job;
    ApplyGrowsOutbox(s.node, Finishes(s.job, s.results), now);
    if exists i :: 0 <= i < |s.job| && Carries(s.job[i], c, b) {
      var i :| 0 <= i < |s.job| && Carries(s.job[i], c, b);
      if s.results[i].Failed? {
        assert Finishes(s.job, s.results)[i] in AppliedBy(s, ApplyRound(now));
      } else {
        assert s.job[i] in s'.delivered;
      }
    } else if exists i :: 0 <= i < |s.node.outbox| && Carries(s.node.outbox[i], c, b) {
      var i :| 0 <= i < |s.node.outbox| && Carries(s.node.outbox[i], c, b);
      assert s'.node.outbox[i] in Traffic(s');
    }
  }

  lemma AbandonKeepsUnderWay(s: System, c: Contact, b: Frame, now: nat)
    requires Enabled(s, AbandonRest(now)) && |s.results| <= |s.job| && UnderWay(s, c, b)
    ensures UnderWay(Do(s, AbandonRest(now)), c, b) || ReportsFailed(s, AbandonRest(now), c, b)
  {
    var applied := AppliedBy(s, AbandonRest(now));
    if out :| out in Traffic(s) && Carries(out, c, b) {
      assert Traffic(s) == s.node.outbox;
      var i :| 0 <= i < |s.node.outbox| && s.node.outbox[i] == out;
      assert applied[i] == Finish(out, Failed);
      assert applied[i] in applied;
    } else {
      var a :| a in s.calls && Carries(a.out, c, b);
      assert a in Do(s, AbandonRest(now)).calls;
    }
  }

  lemma CallKeepsUnderWay(s: System, c: Contact, b: Frame, a: ApiCall, now: nat)
    requires ResultsRecorded(s) && Enabled(s, ApplyCall(a, now)) && |s.results| <= |s.job| && UnderWay(s, c, b)
    ensures var s' := Do(s, ApplyCall(a, now));
      UnderWay(s', c, b) || Delivered(s', c, b) || ReportsFailed(s, ApplyCall(a, now), c, b)
  {
    var s', f := Do(s, ApplyCall(a, now)), Finish(a.out, a.delivery.value);
    if out :| out in Traffic(s) && Carries(out, c, b) {
      ApplyOneGrowsOutbox(s.node, f, now);
      TrafficGrows(s, s'.node, out);
      assert Traffic(s') == Traffic(s.(node := s'.node));
    } else {
      var x :| x in s.calls && Carries(x.out, c, b);
      if x != a {
        assert x in s'.calls;
      } else if f.delivery.Failed? {
        assert f in AppliedBy(s, ApplyCall(a, now));
      } else {
        assert a.out in s'.delivered;
      }
    }
  }

  lemma MoveKeepsUnderWay(s: System, c: Contact, b: Frame, step: Step)
    requires Enabled(s, step) && |s.results| <= |s.job| && UnderWay(s, c, b)
    requires step.TakeAll? || step.TakeCallers? || step.RunNext? || step.RunCall?
    ensures UnderWay(Do(s, step), c, b)
  {
    var s' := Do(s, step);
    if out :| out in Traffic(s) && Carries(out, c, b) {
      if step.TakeCallers? {
        CallerSplitIsStable(s.node.outbox);
        if out in s.node.outbox && IsCaller(out) {
          assert ApiCall(out, None) in s'.calls;
        } else {
          assert out in Traffic(s');
        }
      } else {
        assert Traffic(s') == Traffic(s);
      }
    } else {
      var a :| a in s.calls && Carries(a.out, c, b);
      if step.RunCall? && a == step.call {
        assert a.(delivery := Some(step.delivery)) in s'.calls;
      } else {
        assert a in s'.calls;
      }
    }
  }

  predicate OnlyQueues(step: Step) {
    step.HoldNew? || step.DeliverNew? || step.ControlNew? || step.OtherNew? || step.FlushHeldNow?
    || step.FlushControlNow? || step.HeardFromNow? || step.Elsewhere?
  }

  lemma QueueingGrowsOutbox(s: System, step: Step)
    requires Enabled(s, step) && |s.results| <= |s.job| && OnlyQueues(step)
    ensures var s' := Do(s, step);
      s.node.outbox <= s'.node.outbox && s'.job == s.job && s'.calls == s.calls
  {
  }

  lemma QueueKeepsUnderWay(s: System, c: Contact, b: Frame, step: Step)
    requires Enabled(s, step) && |s.results| <= |s.job| && OnlyQueues(step) && UnderWay(s, c, b)
    ensures UnderWay(Do(s, step), c, b)
  {
    var s' := Do(s, step);
    QueueingGrowsOutbox(s, step);
    if out :| out in Traffic(s) && Carries(out, c, b) {
      TrafficGrows(s, s'.node, out);
      assert Traffic(s') == Traffic(s.(node := s'.node));
    }
  }

  lemma StepKeepsUnderWay(s: System, c: Contact, b: Frame, step: Step)
    requires ResultsRecorded(s) && |s.results| <= |s.job| && Enabled(s, step) && UnderWay(s, c, b)
    ensures UnderWay(Do(s, step), c, b) || Delivered(Do(s, step), c, b) || ReportsFailed(s, step, c, b)
  {
    match step {
      case ApplyRound(now) => RoundKeepsUnderWay(s, c, b, now);
      case ApplyCall(a, now) => CallKeepsUnderWay(s, c, b, a, now);
      case AbandonRest(now) => AbandonKeepsUnderWay(s, c, b, now);
      case TakeAll => MoveKeepsUnderWay(s, c, b, step);
      case TakeCallers => MoveKeepsUnderWay(s, c, b, step);
      case RunNext(_) => MoveKeepsUnderWay(s, c, b, step);
      case RunCall(_, _) => MoveKeepsUnderWay(s, c, b, step);
      case _ => QueueKeepsUnderWay(s, c, b, step);
    }
  }

  /** In every run a send once under way stays so until the network has taken the frame or a failure is applied. */
  lemma {:induction false} SendEndsSomehow(states: seq<System>, steps: seq<Step>, i: nat, c: Contact, b: Frame)
    requires IsRun(states, steps) && Launched(states[0]) && i <= |steps| && UnderWay(states[i], c, b)
    ensures UnderWay(states[|steps|], c, b) || Delivered(states[|steps|], c, b)
         || exists k :: i <= k < |steps| && ReportsFailed(states[k], steps[k], c, b)
    decreases |steps|
  {
    if i < |steps| {
      var n := |steps| - 1;
      var (front, before) := (states[..n + 1], steps[..n]);
      RunPrefix(states, steps);
      SendEndsSomehow(front, before, i, c, b);
      RecordedEveryRun(front, before);
      SendStepEnds(states[n], steps[n], states[n + 1], c, b);
      if k :| i <= k < n && ReportsFailed(front[k], before[k], c, b) {
        assert ReportsFailed(states[k], steps[k], c, b);
      }
    }
  }

  lemma SendStepEnds(s: System, step: Step, s': System, c: Contact, b: Frame)
    requires ResultsRecorded(s) && |s.results| <= |s.job| && Enabled(s, step) && s' == Do(s, step)
    ensures UnderWay(s, c, b) ==> UnderWay(s', c, b) || Delivered(s', c, b) || ReportsFailed(s, step, c, b)
    ensures Delivered(s, c, b) ==> Delivered(s', c, b)
  {
    if UnderWay(s, c, b) {
      StepKeepsUnderWay(s, c, b, step);
    }
    StepKeepsRecorded(s, step);
    if d :| d in s.delivered && d.send.recipient == Some(c) && d.send.bytes == b {
      assert d in s'.delivered;
    }
  }

  // ---------------------------------------------------------------- teardown

  /** The poller's last act on the outbox: its finished round applied, the rest abandoned. */
  function TornDown(s: System, now: nat): System
    requires |s.results| == |s.job|
  {
    var applied := if s.job == [] then s else Do(s, ApplyRound(now));
    Do(applied, AbandonRest(now))
  }

  lemma {:induction false} FailuresSendNothing(s: State, job: seq<Outbound>, now: nat)
    ensures Apply(s, Finishes(job, AllFailed(|job|)), now).outbox == s.outbox
    decreases |job|
  {
    if job != [] {
      var f := Finish(job[0], Failed);
      ApplyOneGrowsOutbox(s, f, now);
      FailuresSendNothing(ApplyOne(s, f, now), job[1..], now);
      assert Finishes(job, AllFailed(|job|))[1..] == Finishes(job[1..], AllFailed(|job[1..]|));
      assert Finishes(job, AllFailed(|job|))[0] == f;
    }
  }

  /** After teardown nothing is queued and nothing is marked in flight, so the saved state retries it all. */
  lemma TeardownLeavesNothingInFlight(s: System, now: nat)
    requires Coherent(s) && |s.results| == |s.job|
    ensures var s' := TornDown(s, now);
      && Coherent(s') && Traffic(s') == []
      && (forall h :: h in s'.node.held ==> !h.inFlight)
      && (forall p :: p in s'.node.pending ==> !p.inFlight)
  {
    var applied := if s.job == [] then s else Do(s, ApplyRound(now));
    if s.job != [] {
      StepKeepsCoherent(s, ApplyRound(now));
    }
    StepKeepsCoherent(applied, AbandonRest(now));
    FailuresSendNothing(applied.node.(outbox := []), applied.node.outbox, now);
    assert Traffic(TornDown(s, now)) == [];
  }

  /** And it loses nothing. */
  lemma TeardownKeepsOwed(s: System, c: Contact, b: Frame, now: nat)
    requires Coherent(s) && ResultsRecorded(s) && |s.results| == |s.job| && Kept(s, c, b) && OpenChat(s.node, c)
    ensures Kept(TornDown(s, now), c, b)
    ensures !Delivered(TornDown(s, now), c, b) && s.calls == {} ==> HeldEntry(TornDown(s, now), c, b)
  {
    var applied := if s.job == [] then s else Do(s, ApplyRound(now));
    if s.job != [] {
      StepKeepsCoherent(s, ApplyRound(now));
      StepKeepsRecorded(s, ApplyRound(now));
      StepKeepsOwed(s, c, b, ApplyRound(now));
      ApplyKeepsRoutes(s.node, Finishes(s.job, s.results), now, c);
    }
    StepKeepsOwed(applied, c, b, AbandonRest(now));
    TeardownLeavesNothingInFlight(s, now);
  }

  lemma {:induction false} ApplyKeepsRoutes(s: State, finished: seq<Finished>, now: nat, c: Contact)
    ensures SameRoutes(s, Apply(s, finished, now), c)
    decreases |finished|
  {
    if finished != [] {
      ApplyOneKeepsRoutes(s, finished[0], now, c);
      ApplyKeepsRoutes(ApplyOne(s, finished[0], now), finished[1..], now, c);
    }
  }
}
