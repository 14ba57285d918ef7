/**
 * The shutdown of a core beside its poller's teardown, which of the frames the teardown puts back are saved, and what
 * the next launch makes of them. A save that is due soon is put off, and may then not be made at all.
 */
module ShutDown {
  import opened Wrappers
  import opened Posting
  import opened Outbox
  import opened InFlight
  import opened NoLoss
  import Runs

  // ---------------------------------------------------------------- saving

  const PERSIST_DEBOUNCE_MS: nat := 3000

  /** `file` is the held queue as the state file has it; a save that fails counts as made. */
  datatype Persist = Persist(lastWrite: nat, pending: bool, file: seq<HeldSend>)

  /** Marks are not saved. */
  function Exported(held: seq<HeldSend>): seq<HeldSend> {
    seq(|held|, i requires 0 <= i < |held| => held[i].(inFlight := false))
  }

  function Save(p: Persist, held: seq<HeldSend>, now: nat, writes: bool): Persist {
    Persist(now, false, if writes then Exported(held) else p.file)
  }

  predicate Due(p: Persist, now: nat) {
    now >= p.lastWrite + PERSIST_DEBOUNCE_MS
  }

  function SaveSoon(p: Persist, held: seq<HeldSend>, now: nat, writes: bool): Persist {
    if Due(p, now) then Save(p, held, now, writes) else p.(pending := true)
  }

  function FlushPending(p: Persist, held: seq<HeldSend>, now: nat, writes: bool): Persist {
    if p.pending then Save(p, held, now, writes) else p
  }

  class Saver {
    var lastWrite: nat
    var pending: bool
    var file: seq<HeldSend>

    function View(): Persist
      reads this
    {
      Persist(lastWrite, pending, file)
    }

    constructor (p: Persist)
      ensures View() == p
    {
      lastWrite, pending, file := p.lastWrite, p.pending, p.file;
    }

    method SaveNow(held: seq<HeldSend>, now: nat, writes: bool)
      modifies this
      ensures View() == Save(old(View()), held, now, writes)
    {
      if writes {
        var out: seq<HeldSend> := [];
        for i := 0 to |held|
          invariant out == Exported(held[..i])
        {
          assert held[..i + 1] == held[..i] + [held[i]];
          out := out + [held[i].(inFlight := false)];
        }
        assert held[..|held|] == held;
        file := out;
      }
      lastWrite, pending := now, false;
    }

    method SaveLater(held: seq<HeldSend>, now: nat, writes: bool)
      modifies this
      ensures View() == SaveSoon(old(View()), held, now, writes)
    {
      if now >= lastWrite + PERSIST_DEBOUNCE_MS {
        SaveNow(held, now, writes);
      } else {
        pending := true;
      }
    }

    method Flush(held: seq<HeldSend>, now: nat, writes: bool)
      modifies this
      ensures View() == FlushPending(old(View()), held, now, writes)
    {
      if pending {
        SaveNow(held, now, writes);
      }
    }
  }

  // ---------------------------------------------------------------- the two threads, step by step

  /** The thread that shuts down: about to try the lock, waiting for the poller, about to try again, done. */
  datatype Closer = Trying | Waiting(early: bool) | TryingAgain | Closed

  /** The poller, out of its loop and with its drain applied: its round to join, the rest to abandon, then to go. */
  datatype Poller = Joining | Abandoning | Leaving | Gone

  datatype Core = Core(sys: System, persist: Persist, clock: nat, closer: Closer, poller: Poller)

  /** `takes` is whether the lock was free in time; `ApiSave` is any other call that saves, at once or soon. */
  datatype Step =
    | CloseEarly(takes: bool, now: nat, writes: bool)
    | StopWaiting
    | CloseLate(takes: bool, now: nat, writes: bool)
    | RunOne(delivery: Delivery)
    | JoinRound(now: nat, writes: bool)
    | Abandon(now: nat, writes: bool)
    | Leave
    | ApiSave(soon: bool, now: nat, writes: bool)

  predicate Enabled(core: Core, step: Step) {
    match step
    case CloseEarly(_, now, _) => core.closer.Trying? && now >= core.clock
    case StopWaiting => core.closer.Waiting?
    case CloseLate(_, now, _) => core.closer.TryingAgain? && now >= core.clock
    case RunOne(d) => core.poller.Joining? && InFlight.Enabled(core.sys, RunNext(d))
    case JoinRound(now, _) => core.poller.Joining? && |core.sys.results| == |core.sys.job| && now >= core.clock
    case Abandon(now, _) => core.poller.Abandoning? && core.sys.job == [] && now >= core.clock
    case Leave => core.poller.Leaving?
    case ApiSave(_, now, _) => now >= core.clock
  }

  function Close(core: Core, takes: bool, now: nat, writes: bool, closer: Closer): Core {
    core.(persist := if takes then FlushPending(core.persist, core.sys.node.held, now, writes) else core.persist,
          clock := now, closer := closer)
  }

  function Do(core: Core, step: Step): Core
    requires Enabled(core, step) && |core.sys.results| <= |core.sys.job|
  {
    match step
    case CloseEarly(takes, now, writes) => Close(core, takes, now, writes, Waiting(takes))
    case StopWaiting => core.(closer := if core.closer.early then Closed else TryingAgain)
    case CloseLate(takes, now, writes) => Close(core, takes, now, writes, Closed)
    case RunOne(d) => core.(sys := InFlight.Do(core.sys, RunNext(d)))
    case JoinRound(now, writes) =>
      if core.sys.job == [] then core.(poller := Abandoning)
      else
        var sys := InFlight.Do(core.sys, ApplyRound(now));
        core.(sys := sys, persist := SaveSoon(core.persist, sys.node.held, now, writes), clock := now,
              poller := Abandoning)
    case Abandon(now, writes) =>
      if core.sys.node.outbox == [] then core.(poller := Leaving)
      else
        var sys := InFlight.Do(core.sys, AbandonRest(now));
        core.(sys := sys, persist := SaveSoon(core.persist, sys.node.held, now, writes), clock := now,
              poller := Leaving)
    case Leave => core.(poller := Gone)
    case ApiSave(soon, now, writes) =>
      var held := core.sys.node.held;
      core.(persist := if soon then SaveSoon(core.persist, held, now, writes)
                       else Save(core.persist, held, now, writes),
            clock := now)
  }

  ghost predicate IsRun(cores: seq<Core>, steps: seq<Step>) {
    && |cores| == |steps| + 1
    && (forall i :: 0 <= i < |cores| ==> |cores[i].sys.results| <= |cores[i].sys.job|)
    && (forall i :: 0 <= i < |steps| ==> Enabled(cores[i], steps[i]) && cores[i + 1] == Do(cores[i], steps[i]))
  }

  // ---------------------------------------------------------------- what is in the file

  ghost predicate InFile(p: Persist, c: Contact, b: Frame) {
    exists h :: h in p.file && h.contact == c && h.bytes == b
  }

  /** The step writes the file. */
  predicate Writes(core: Core, step: Step) {
    match step
    case CloseEarly(takes, _, writes) => takes && core.persist.pending && writes
    case CloseLate(takes, _, writes) => takes && core.persist.pending && writes
    case JoinRound(now, writes) => core.sys.job != [] && Due(core.persist, now) && writes
    case Abandon(now, writes) => core.sys.node.outbox != [] && Due(core.persist, now) && writes
    case ApiSave(soon, now, writes) => (soon ==> Due(core.persist, now)) && writes
    case _ => false
  }

  lemma ExportedHas(sys: System, c: Contact, b: Frame)
    ensures (exists h :: h in Exported(sys.node.held) && h.contact == c && h.bytes == b) <==> HeldEntry(sys, c, b)
  {
    var held, out := sys.node.held, Exported(sys.node.held);
    if h :| h in out && h.contact == c && h.bytes == b {
      var i :| 0 <= i < |out| && out[i] == h;
      assert held[i] in held;
    }
    if h :| h in held && h.contact == c && h.bytes == b {
      var i :| 0 <= i < |held| && held[i] == h;
      assert out[i] in out;
    }
  }

  /** What is written: every entry with its contact, message and bytes, in order and idle. */
  lemma ExportedTells(held: seq<HeldSend>)
    ensures var out := Exported(held);
      && |out| == |held|
      && forall i :: 0 <= i < |held| ==> out[i] == HeldSend(held[i].contact, held[i].msg, held[i].bytes, false)
  {
  }

  lemma StepTells(core: Core, step: Step, c: Contact, b: Frame)
    requires Enabled(core, step) && |core.sys.results| <= |core.sys.job|
    ensures var after := Do(core, step);
      InFile(after.persist, c, b) <==> if Writes(core, step) then HeldEntry(after.sys, c, b)
                                       else InFile(core.persist, c, b)
  {
    ExportedHas(Do(core, step).sys, c, b);
  }

  /** A frame held from step `k` on is in the file at the end exactly when some step from there on wrote it. */
  lemma {:induction false} HeldIsWrittenIff(cores: seq<Core>, steps: seq<Step>, k: nat, c: Contact, b: Frame)
    requires IsRun(cores, steps) && k <= |steps| && !InFile(cores[k].persist, c, b)
    requires forall j :: k < j <= |steps| ==> HeldEntry(cores[j].sys, c, b)
    ensures InFile(cores[|steps|].persist, c, b) <==> exists i :: k <= i < |steps| && Writes(cores[i], steps[i])
    decreases |steps|
  {
    if k < |steps| {
      var n := |steps| - 1;
      var (front, before) := (cores[..n + 1], steps[..n]);
      assert forall i :: 0 <= i < n ==> front[i] == cores[i] && before[i] == steps[i];
      HeldIsWrittenIff(front, before, k, c, b);
      StepTells(cores[n], steps[n], c, b);
    }
  }

  // ---------------------------------------------------------------- from the teardown's last act on

  /** Once the rest is abandoned nothing moves any more. */
  lemma {:induction false} NothingMoves(cores: seq<Core>, steps: seq<Step>, k: nat)
    requires IsRun(cores, steps) && k < |steps| && steps[k].Abandon?
    ensures cores[|steps|].sys == cores[k + 1].sys && cores[|steps|].sys.job == []
    ensures cores[|steps|].poller.Leaving? || cores[|steps|].poller.Gone?
    decreases |steps|
  {
    if k + 1 < |steps| {
      var n := |steps| - 1;
      NothingMoves(cores[..n + 1], steps[..n], k);
    }
  }

  /** A one-off frame for an open chat with no relay route, still in the outbox when the rest is abandoned, is held. */
  lemma AbandonedIsHeld(core: Core, step: Step, c: Contact, b: Frame)
    requires Coherent(core.sys) && ResultsRecorded(core.sys) && Enabled(core, step) && step.Abandon?
    requires OpenChat(core.sys.node, c) && !Delivered(core.sys, c, b)
    requires exists out :: out in core.sys.node.outbox && OneOffTo(out, c, b)
    ensures HeldEntry(Do(core, step).sys, c, b)
  {
    var s, s' := core.sys, Do(core, step).sys;
    var out :| out in s.node.outbox && OneOffTo(out, c, b);
    assert out in Traffic(s) && Claims(out);
    StepKeepsOwed(s, c, b, AbandonRest(step.now));
    TeardownLeavesNothingInFlight(s, step.now);
    assert s' == TornDown(s, step.now);
    assert !Delivered(s', c, b);
  }

  /** The steps in which the shutting thread has the lock. */
  predicate Closes(step: Step) {
    (step.CloseEarly? || step.CloseLate?) && step.takes
  }

  ghost predicate OnlyTwoThreads(steps: seq<Step>, k: nat) {
    forall i :: k < i < |steps| ==> !steps[i].ApiSave?
  }

  lemma StepCloses(core: Core, step: Step)
    requires Enabled(core, step) && |core.sys.results| <= |core.sys.job|
    ensures Closes(step) ==> Do(core, step).closer in {Waiting(true), Closed}
    ensures core.closer in {Waiting(true), Closed} ==> !Closes(step) && Do(core, step).closer in {Waiting(true), Closed}
  {
  }

  /** The lock is had once at most. */
  lemma {:induction false} ClosedOnce(cores: seq<Core>, steps: seq<Step>, i: nat)
    requires IsRun(cores, steps) && i < |steps| && Closes(steps[i])
    ensures cores[|steps|].closer in {Waiting(true), Closed}
    ensures forall j :: i < j < |steps| ==> !Closes(steps[j])
    decreases |steps|
  {
    var n := |steps| - 1;
    StepCloses(cores[n], steps[n]);
    if i < n {
      var (front, before) := (cores[..n + 1], steps[..n]);
      ClosedOnce(front, before, i);
      assert forall j :: i < j < n ==> before[j] == steps[j];
    }
  }

  lemma RestKeepsPending(core: Core, step: Step)
    requires Enabled(core, step) && (core.poller.Leaving? || core.poller.Gone?) && !step.ApiSave?
    requires |core.sys.results| <= |core.sys.job|
    ensures Do(core, step).persist.pending <==> core.persist.pending && !Closes(step)
  {
  }

  /** Whether a save is pending, from the last act on. */
  lemma {:induction false} PendingTells(cores: seq<Core>, steps: seq<Step>, k: nat)
    requires IsRun(cores, steps) && k < |steps| && steps[k].Abandon? && cores[k].sys.node.outbox != []
    requires OnlyTwoThreads(steps, k)
    ensures cores[|steps|].persist.pending
       <==> !Due(cores[k].persist, steps[k].now) && forall i :: k < i < |steps| ==> !Closes(steps[i])
    decreases |steps|
  {
    if k + 1 < |steps| {
      var n := |steps| - 1;
      var (front, before) := (cores[..n + 1], steps[..n]);
      assert forall i :: 0 <= i < n ==> before[i] == steps[i];
      PendingTells(front, before, k);
      NothingMoves(front, before, k);
      RestKeepsPending(cores[n], steps[n]);
    }
  }

  lemma WritesAfter(cores: seq<Core>, steps: seq<Step>, k: nat, i: nat)
    requires IsRun(cores, steps) && k < i < |steps| && steps[k].Abandon? && cores[k].sys.node.outbox != []
    requires OnlyTwoThreads(steps, k)
    ensures Writes(cores[i], steps[i])
       <==> !Due(cores[k].persist, steps[k].now) && Closes(steps[i]) && steps[i].writes
  {
    var (front, before) := (cores[..i + 1], steps[..i]);
    assert forall j :: 0 <= j < i ==> before[j] == steps[j];
    assert IsRun(front, before);
    PendingTells(front, before, k);
    NothingMoves(front, before, k);
    if j :| k < j < i && Closes(steps[j]) {
      ClosedOnce(cores, steps, j);
    }
  }

  /**
   * What the teardown puts back is in the file at the end exactly when the last write was a debounce window ago, and it
   * was written at once; or else when the shutting thread had the lock after that. (Other calls not saving.)
   */
  lemma AbandonedIsWrittenIff(cores: seq<Core>, steps: seq<Step>, k: nat, c: Contact, b: Frame)
    requires IsRun(cores, steps) && k < |steps| && steps[k].Abandon? && OnlyTwoThreads(steps, k)
    requires Coherent(cores[k].sys) && ResultsRecorded(cores[k].sys) && OpenChat(cores[k].sys.node, c)
    requires exists out :: out in cores[k].sys.node.outbox && OneOffTo(out, c, b)
    requires !Delivered(cores[k].sys, c, b) && !InFile(cores[k].persist, c, b)
    ensures HeldEntry(cores[|steps|].sys, c, b)
    ensures InFile(cores[|steps|].persist, c, b)
       <==> if Due(cores[k].persist, steps[k].now) then steps[k].writes
            else exists i :: k < i < |steps| && Closes(steps[i]) && steps[i].writes
  {
    AbandonedIsHeld(cores[k], steps[k], c, b);
    forall j | k < j <= |steps| ensures HeldEntry(cores[j].sys, c, b) {
      NothingMoves(cores[..j + 1], steps[..j], k);
    }
    HeldIsWrittenIff(cores, steps, k, c, b);
    forall i | k < i < |steps|
      ensures Writes(cores[i], steps[i])
         <==> !Due(cores[k].persist, steps[k].now) && Closes(steps[i]) && steps[i].writes
    {
      WritesAfter(cores, steps, k, i);
    }
  }

  /** So, on a disk that can be written: written at once, or the lock was had after the teardown's last act. */
  lemma WrittenIffClosedAfter(cores: seq<Core>, steps: seq<Step>, k: nat, close: nat, c: Contact, b: Frame)
    requires IsRun(cores, steps) && k < |steps| && steps[k].Abandon? && OnlyTwoThreads(steps, k)
    requires Coherent(cores[k].sys) && ResultsRecorded(cores[k].sys) && OpenChat(cores[k].sys.node, c)
    requires exists out :: out in cores[k].sys.node.outbox && OneOffTo(out, c, b)
    requires !Delivered(cores[k].sys, c, b) && !InFile(cores[k].persist, c, b)
    requires close < |steps| && Closes(steps[close]) && steps[close].writes && steps[k].writes
    ensures InFile(cores[|steps|].persist, c, b) <==> Due(cores[k].persist, steps[k].now) || close > k
  {
    AbandonedIsWrittenIff(cores, steps, k, c, b);
    ClosedOnce(cores, steps, close);
  }

  lemma {:induction false} GoneStays(cores: seq<Core>, steps: seq<Step>, i: nat)
    requires IsRun(cores, steps) && i <= |steps| && cores[i].poller.Gone?
    ensures cores[|steps|].poller.Gone?
    decreases |steps|
  {
    if i < |steps| {
      var n := |steps| - 1;
      GoneStays(cores[..n + 1], steps[..n], i);
    }
  }

  /** What the comment promises, when the lock is had once the poller is gone: then everything put back is saved. */
  lemma ClosedOnceGoneIsWritten(cores: seq<Core>, steps: seq<Step>, k: nat, close: nat, c: Contact, b: Frame)
    requires IsRun(cores, steps) && k < |steps| && steps[k].Abandon? && OnlyTwoThreads(steps, k)
    requires Coherent(cores[k].sys) && ResultsRecorded(cores[k].sys) && OpenChat(cores[k].sys.node, c)
    requires exists out :: out in cores[k].sys.node.outbox && OneOffTo(out, c, b)
    requires !Delivered(cores[k].sys, c, b) && !InFile(cores[k].persist, c, b)
    requires close < |steps| && Closes(steps[close]) && steps[close].writes && steps[k].writes
    requires cores[close].poller.Gone?
    ensures InFile(cores[|steps|].persist, c, b)
  {
    if close <= k {
      GoneStays(cores[..k + 1], steps[..k], close);
      assert false;
    }
    WrittenIffClosedAfter(cores, steps, k, close, c, b);
  }

  // ---------------------------------------------------------------- a frame that is not saved

  /** Handed one frame to send. */
  function Handed(me: Contact, c: Contact, b: Frame): System {
    InFlight.Do(System(Runs.Alone(me, c), [], [], {}, [], {}), DeliverNew("c.onion", c, b, false, Nothing))
  }

  lemma HandedIsQueued(me: Contact, c: Contact, b: Frame)
    ensures var s := Handed(me, c, b);
      && Coherent(s) && ResultsRecorded(s) && s.job == [] && s.results == []
      && OpenChat(s.node, c) && !Delivered(s, c, b)
      && (exists out :: out in s.node.outbox && OneOffTo(out, c, b))
  {
    var s0 := System(Runs.Alone(me, c), [], [], {}, [], {});
    var step := DeliverNew("c.onion", c, b, false, Nothing);
    assert Runs.Launched(s0);
    Runs.LaunchIsCoherent(s0);
    StepKeepsCoherent(s0, step);
    StepKeepsRecorded(s0, step);
    var out := Outbound(DetachTo(s0.node, c, "c.onion", b, false), DirectThenRelay, Nothing);
    DetachedIsRouted(s0.node, c, "c.onion", b, false);
    assert Handed(me, c, b).node.outbox == [out];
  }

  /** A core just saved, with nothing running. */
  function JustSaved(sys: System): Core {
    Core(sys, Persist(0, false, []), 0, Trying, Joining)
  }

  /** The lock is had at once; then the poller winds up and the shutting thread returns. */
  function ClosedEarly(sys: System): seq<Core>
    requires sys.job == [] && sys.results == []
  {
    var c0 := JustSaved(sys);
    var c1 := Do(c0, CloseEarly(true, 0, true));
    var c2 := Do(c1, JoinRound(0, true));
    var c3 := Do(c2, Abandon(1, true));
    var c4 := Do(c3, Leave);
    [c0, c1, c2, c3, c4, Do(c4, StopWaiting)]
  }

  const CLOSED_EARLY: seq<Step> := [CloseEarly(true, 0, true), JoinRound(0, true), Abandon(1, true), Leave, StopWaiting]

  lemma ClosedEarlyRuns(sys: System)
    requires sys.job == [] && sys.results == []
    ensures var cores := ClosedEarly(sys);
      && IsRun(cores, CLOSED_EARLY) && cores[2].sys == sys && cores[2].persist == Persist(0, false, [])
      && cores[5].closer.Closed? && cores[5].poller.Gone?
  {
  }

  lemma ClosedEarlyLoses(sys: System, c: Contact, b: Frame)
    requires Coherent(sys) && ResultsRecorded(sys) && sys.job == [] && sys.results == []
    requires OpenChat(sys.node, c) && !Delivered(sys, c, b)
    requires exists out :: out in sys.node.outbox && OneOffTo(out, c, b)
    ensures var cores := ClosedEarly(sys);
      HeldEntry(cores[5].sys, c, b) && !InFile(cores[5].persist, c, b)
  {
    ClosedEarlyRuns(sys);
    AbandonedIsWrittenIff(ClosedEarly(sys), CLOSED_EARLY, 2, c, b);
  }

  /** A save just made, a frame waiting: the early close gets the lock, and nothing writes what is put back after it. */
  lemma ClosedEarlyIsLost(me: Contact, c: Contact, b: Frame)
    ensures var sys := Handed(me, c, b);
      sys.job == [] && sys.results == [] &&
      var cores := ClosedEarly(sys);
      && IsRun(cores, CLOSED_EARLY) && cores[5].closer.Closed? && cores[5].poller.Gone?
      && HeldEntry(cores[5].sys, c, b) && !InFile(cores[5].persist, c, b)
  {
    HandedIsQueued(me, c, b);
    ClosedEarlyRuns(Handed(me, c, b));
    ClosedEarlyLoses(Handed(me, c, b), c, b);
  }

  // ---------------------------------------------------------------- the next launch

  function Unmarked(pending: seq<PendingControl>): seq<PendingControl> {
    seq(|pending|, i requires 0 <= i < |pending| => pending[i].(inFlight := false))
  }

  /** A node restored from what was written of `s`: the queues as saved, nothing on its way, no clocks. */
  function Restarted(s: System, file: seq<HeldSend>): System {
    var node := s.node.(held := file, outbox := [], pending := Unmarked(s.node.pending), backoff := map[],
                        holdLog := Runs.HeldFrames(file));
    System(node, [], [], {}, [], s.sealed)
  }

  /** Written from a state any run reaches, the file makes a launch that runs can start from, holding what was held. */
  lemma RestartLaunches(s: System, c: Contact, b: Frame)
    requires Coherent(s)
    ensures Runs.Launched(Restarted(s, Exported(s.node.held)))
    ensures HeldEntry(Restarted(s, Exported(s.node.held)), c, b) <==> HeldEntry(s, c, b)
  {
    var held, file, log := s.node.held, Exported(s.node.held), s.node.holdLog;
    var frames := Runs.HeldFrames(file);
    ExportedHas(s, c, b);
    forall i | 0 <= i < |held| ensures frames[i] == held[i].bytes && held[i].bytes in log {
      assert held[i] in held;
    }
    forall i, j | 0 <= i < j < |frames| ensures frames[i] != frames[j] {
      assert Ticket(log, held[i].bytes) < Ticket(log, held[j].bytes);
    }
    var pending := Unmarked(s.node.pending);
    forall p | p in pending ensures p.bytes !in frames && p.bytes in s.sealed && !p.inFlight {
      var i :| 0 <= i < |pending| && pending[i] == p;
      assert s.node.pending[i] in s.node.pending;
    }
  }
}
