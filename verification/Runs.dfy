/** Runs of the delivery machine: coherence and hold order in every one. */
module Runs {
  import opened Wrappers
  import opened RelayList
  import opened Posting
  import opened Outbox
  import opened InFlight
  import opened HoldOrder

  // ---------------------------------------------------------------- whole runs

  ghost predicate IsRun(states: seq<System>, steps: seq<Step>) {
    && |states| == |steps| + 1
    && (forall i :: 0 <= i < |states| ==> |states[i].results| <= |states[i].job|)
    && (forall i :: 0 <= i < |steps| ==> Enabled(states[i], steps[i]) && states[i + 1] == Do(states[i], steps[i]))
  }

  lemma RunPrefix(states: seq<System>, steps: seq<Step>)
    requires IsRun(states, steps) && steps != []
    ensures var n := |steps| - 1;
      && IsRun(states[..n + 1], steps[..n])
      && (forall k :: 0 <= k <= n ==> states[..n + 1][k] == states[k])
      && (forall k :: 0 <= k < n ==> steps[..n][k] == steps[k])
  {
  }

  /** The results a step applies, in order. */
  function AppliedBy(s: System, step: Step): seq<Finished>
    requires |s.results| <= |s.job|
  {
    match step
    case ApplyRound(_) => Finishes(s.job[..|s.results|], s.results)
    case ApplyCall(a, _) => if a.delivery.Some? then [Finish(a.out, a.delivery.value)] else []
    case AbandonRest(_) => Finishes(s.node.outbox, AllFailed(|s.node.outbox|))
    case _ => []
  }

  function HeldFrames(held: seq<HeldSend>): seq<Frame> {
    seq(|held|, i requires 0 <= i < |held| => held[i].bytes)
  }

  /** A launch: an empty or restored node, nothing on its way, every saved frame distinct. */
  ghost predicate Launched(s: System) {
    && s.job == [] && s.results == [] && s.calls == {} && s.delivered == [] && s.node.outbox == []
    && s.node.holdLog == HeldFrames(s.node.held) && Distinct(s.node.holdLog) && DistinctControls(s.node.pending)
    && (forall h :: h in s.node.held ==> !h.inFlight)
    && (forall p :: p in s.node.pending ==> !p.inFlight && p.bytes !in s.node.holdLog && p.bytes in s.sealed)
    && (forall b :: b in s.node.holdLog ==> b in s.sealed)
  }

  /** A node with one open chat, no relays and nothing queued. */
  function Alone(me: Contact, c: Contact): State {
    var chats := map[c := Chat(false, false, "c.onion", None, None, map[])];
    State(me, chats, Routes([], None, []), [], [], [], map[], false, [], [])
  }

  lemma LaunchIsCoherent(s: System)
    requires Launched(s)
    ensures Coherent(s)
    ensures forall c :: FifoOf(s, c)
  {
    var log, held := s.node.holdLog, s.node.held;
    forall h | h in held ensures h.bytes in log {
      var i :| 0 <= i < |held| && held[i] == h;
      assert log[i] == h.bytes;
    }
    forall i | 0 <= i < |log| ensures Ticket(log, log[i]) == i {
      TicketExact(log, log[i]);
    }
    forall i, j | 0 <= i < j < |held| ensures Ticket(log, held[i].bytes) < Ticket(log, held[j].bytes) {
      assert log[i] == held[i].bytes && log[j] == held[j].bytes;
    }
    assert Traffic(s) == [];
  }

  /** In-flight coherence holds in every reachable state. */
  lemma {:induction false} CoherentEveryRun(states: seq<System>, steps: seq<Step>)
    requires IsRun(states, steps) && Launched(states[0])
    ensures Coherent(states[|steps|])
    decreases |steps|
  {
    if steps == [] {
      LaunchIsCoherent(states[0]);
    } else {
      var n := |steps| - 1;
      assert steps[..n] + [steps[n]] == steps;
      CoherentEveryRun(states[..n + 1], steps[..n]);
      StepKeepsCoherent(states[n], steps[n]);
    }
  }

  /** Whatever is interleaved, an unrouted contact's held frames arrive in the order they were held. */
  lemma {:induction false} FifoEveryRun(states: seq<System>, steps: seq<Step>, c: Contact)
    requires IsRun(states, steps) && Launched(states[0])
    requires forall i :: 0 <= i < |steps| ==> !HasRoute(states[i].node, c)
    ensures FifoOf(states[|steps|], c)
    ensures DeliveredInOrder(c, states[|steps|].node.holdLog, states[|steps|].delivered)
    decreases |steps|
  {
    if steps == [] {
      LaunchIsCoherent(states[0]);
    } else {
      var n := |steps| - 1;
      assert steps[..n] + [steps[n]] == steps;
      FifoEveryRun(states[..n + 1], steps[..n], c);
      CoherentEveryRun(states[..n + 1], steps[..n]);
      StepKeepsFifo(states[n], c, steps[n]);
    }
  }

  /** At most one entry of an unrouted contact is in flight, and it is its oldest. */
  lemma OneInFlight(s: System, c: Contact, i: nat)
    requires Coherent(s) && FifoOf(s, c)
    requires i < |s.node.held| && s.node.held[i].contact == c && s.node.held[i].inFlight
    ensures Oldest(s.node.held, i)
    ensures forall j :: 0 <= j < |s.node.held| && j != i && s.node.held[j].contact == c ==> !s.node.held[j].inFlight
  {
    var held, log := s.node.held, s.node.holdLog;
    OrderedApart(log, held, i);
    assert held[i] in held;
    forall j | 0 <= j < |held| && j != i && held[j].contact == c ensures i < j && !held[j].inFlight {
      assert held[j] in held;
      assert Before(log, held[i].bytes, held[j].bytes);
    }
  }
}
