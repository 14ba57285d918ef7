/** The poller's life: a stop it can sleep on, an exit others can wait for, and what has to be over by then. */
module Lifecycle {
  import opened Wrappers

  // ---------------------------------------------------------------- what the poller does, as a log

  datatype Kind = Drain | Directory | Outbox | Invite

  datatype Event =
    | Started(kind: Kind, id: nat)
    | Joined(kind: Kind, id: nat)
    | Applied(kind: Kind, id: nat)
    | Abandoned
    | CoreReleased
    | GuardDropped

  /** One kind of job: none, one running, or one whose result is in hand and not yet applied. */
  datatype Slot = Free | Flying(id: nat) | InHand(id: nat)

  /** A drain's harvest and an outbox round's outcomes exist nowhere else; the others may be dropped. */
  predicate MustApply(k: Kind) {
    k.Drain? || k.Outbox?
  }

  function SlotOf(log: seq<Event>, k: Kind): Slot {
    if log == [] then Free
    else
      var before, e := SlotOf(log[..|log| - 1], k), log[|log| - 1];
      match e
      case Started(k', id) => if k' == k then Flying(id) else before
      case Joined(k', id) => if k' != k then before else if MustApply(k) then InHand(id) else Free
      case Applied(k', _) => if k' == k then Free else before
      case _ => before
  }

  function Times(log: seq<Event>, e: Event): nat {
    if log == [] then 0 else Times(log[..|log| - 1], e) + if log[|log| - 1] == e then 1 else 0
  }

  /** Whether `e` may follow `log`. */
  predicate MayFollow(log: seq<Event>, e: Event) {
    && GuardDropped !in log
    && (CoreReleased in log ==> e.GuardDropped?)
    && match e
       case Started(k, id) => SlotOf(log, k) == Free && Started(k, id) !in log
       case Joined(k, id) => SlotOf(log, k) == Flying(id)
       case Applied(k, id) => MustApply(k) && SlotOf(log, k) == InHand(id)
       case Abandoned => SlotOf(log, Outbox) == Free
       case CoreReleased =>
         SlotOf(log, Drain) == Free && SlotOf(log, Directory) == Free && SlotOf(log, Outbox) == Free && Abandoned in log
       case GuardDropped => CoreReleased in log
  }

  predicate Legal(log: seq<Event>) {
    log == [] || (Legal(log[..|log| - 1]) && MayFollow(log[..|log| - 1], log[|log| - 1]))
  }

  lemma {:induction false} TimesIn(log: seq<Event>, e: Event)
    ensures Times(log, e) > 0 <==> e in log
  {
    if log != [] {
      TimesIn(log[..|log| - 1], e);
      assert log == log[..|log| - 1] + [log[|log| - 1]];
    }
  }

  predicate Tallies(log: seq<Event>, k: Kind, id: nat) {
    var slot := SlotOf(log, k);
    && Times(log, Started(k, id)) == Times(log, Joined(k, id)) + (if slot == Flying(id) then 1 else 0)
    && (MustApply(k) ==>
          Times(log, Joined(k, id)) == Times(log, Applied(k, id)) + (if slot == InHand(id) then 1 else 0))
    && Times(log, Started(k, id)) <= 1
  }

  lemma {:induction false} LegalTallies(log: seq<Event>, k: Kind, id: nat)
    requires Legal(log)
    ensures Tallies(log, k, id)
  {
    if log != [] {
      LegalTallies(log[..|log| - 1], k, id);
      TimesIn(log[..|log| - 1], Started(k, id));
    }
  }

  /**
   * When the guard drops: the core is let go, no drain, fetch or round is running, and each result was applied once.
   */
  ghost predicate AllOver(log: seq<Event>) {
    && CoreReleased in log && Abandoned in log
    && (forall k: Kind, id: nat :: !k.Invite? && Started(k, id) in log ==>
          Times(log, Started(k, id)) == Times(log, Joined(k, id)) == 1)
    && (forall k: Kind, id: nat :: MustApply(k) && Started(k, id) in log ==> Times(log, Applied(k, id)) == 1)
  }

  lemma {:induction false} ReleasedIsIdle(log: seq<Event>, k: Kind)
    requires Legal(log) && CoreReleased in log && !k.Invite?
    ensures SlotOf(log, k) == Free && Abandoned in log
  {
    var front, last := log[..|log| - 1], log[|log| - 1];
    assert log == front + [last];
    if CoreReleased in front {
      ReleasedIsIdle(front, k);
    }
  }

  lemma ReleasedIsOver(log: seq<Event>)
    requires Legal(log) && CoreReleased in log
    ensures AllOver(log)
  {
    ReleasedIsIdle(log, Drain);
    forall k: Kind, id: nat | !k.Invite? && Started(k, id) in log
      ensures Times(log, Started(k, id)) == Times(log, Joined(k, id)) == 1
      ensures MustApply(k) ==> Times(log, Applied(k, id)) == 1
    {
      LegalTallies(log, k, id);
      ReleasedIsIdle(log, k);
      TimesIn(log, Started(k, id));
    }
  }

  lemma DroppedIsReleased(log: seq<Event>)
    requires Legal(log) && GuardDropped in log
    ensures CoreReleased in log
  {
    assert log == log[..|log| - 1] + [log[|log| - 1]];
  }

  // ---------------------------------------------------------------- the signal, step by step

  datatype Call = Sleep | WaitForExit

  /** Where a thread is: elsewhere, parked on the condition, woken and about to look again, or returned. */
  datatype Place =
    | Elsewhere
    | Parked(call: Call)
    | Woken(call: Call, timedOut: bool)
    | Returned(call: Call, result: bool)

  type ThreadId = nat

  /**
   * `stopCalls` counts the calls of `stop` that have set the flag and not yet notified; `exitCall` likewise the
   * guard.
   */
  datatype System = System(stop: bool, stopCalls: nat, exitCall: bool, threads: map<ThreadId, Place>, log: seq<Event>)

  predicate Exited(s: System) {
    GuardDropped in s.log
  }

  datatype Step =
    | Enter(thread: ThreadId, call: Call)
    | SetStop
    | NotifyStop
    | NotifyExit
    | WakeUp(thread: ThreadId, timedOut: bool)
    | Look(thread: ThreadId)
    | Poll(event: Event)

  predicate Enabled(s: System, step: Step) {
    match step
    case Enter(t, _) => t in s.threads && (s.threads[t].Elsewhere? || s.threads[t].Returned?)
    case SetStop => true
    case NotifyStop => s.stopCalls > 0
    case NotifyExit => s.exitCall
    case WakeUp(t, _) => t in s.threads && s.threads[t].Parked?
    case Look(t) => t in s.threads && s.threads[t].Woken?
    case Poll(e) => MayFollow(s.log, e)
  }

  /** What a thread finds when it has the lock: a reason to return, or to park. */
  function Looked(s: System, call: Call, timedOut: bool): Place {
    match call
    case Sleep => if s.stop then Returned(Sleep, false) else if timedOut then Returned(Sleep, true) else Parked(Sleep)
    case WaitForExit =>
      if Exited(s) then Returned(WaitForExit, true)
      else if timedOut then Returned(WaitForExit, false)
      else Parked(WaitForExit)
  }

  /** Every parked thread is woken: the two calls share one condition. */
  function Notified(threads: map<ThreadId, Place>): map<ThreadId, Place> {
    map t | t in threads :: if threads[t].Parked? then Woken(threads[t].call, false) else threads[t]
  }

  function Do(s: System, step: Step): System
    requires Enabled(s, step)
  {
    match step
    case Enter(t, call) => s.(threads := s.threads[t := Looked(s, call, false)])
    case SetStop => s.(stop := true, stopCalls := s.stopCalls + 1)
    case NotifyStop => s.(stopCalls := s.stopCalls - 1, threads := Notified(s.threads))
    case NotifyExit => s.(exitCall := false, threads := Notified(s.threads))
    case WakeUp(t, timedOut) => s.(threads := s.threads[t := Woken(s.threads[t].call, timedOut)])
    case Look(t) => s.(threads := s.threads[t := Looked(s, s.threads[t].call, s.threads[t].timedOut)])
    case Poll(e) => s.(log := s.log + [e], exitCall := s.exitCall || e.GuardDropped?)
  }

  /** No wakeup is lost, and no call returned what was not so. */
  ghost predicate Sound(s: System) {
    && Legal(s.log)
    && (s.stopCalls > 0 ==> s.stop)
    && (s.exitCall ==> Exited(s))
    && (forall t :: t in s.threads && s.threads[t] == Parked(Sleep) && s.stop ==> s.stopCalls > 0)
    && (forall t :: t in s.threads && s.threads[t] == Parked(WaitForExit) && Exited(s) ==> s.exitCall)
    && (forall t :: t in s.threads && s.threads[t] == Returned(Sleep, false) ==> s.stop)
    && (forall t :: t in s.threads && s.threads[t] == Returned(WaitForExit, true) ==> Exited(s))
  }

  lemma StepKeepsSound(s: System, step: Step)
    requires Sound(s) && Enabled(s, step)
    ensures Sound(Do(s, step))
    ensures s.stop ==> Do(s, step).stop
    ensures Exited(s) ==> Exited(Do(s, step))
  {
    if step.Poll? {
      var log := s.log + [step.event];
      assert log[..|log| - 1] == s.log;
      assert forall e :: e in log <==> e in s.log || e == step.event;
    }
  }

  ghost predicate IsRun(states: seq<System>, steps: seq<Step>) {
    && |states| == |steps| + 1
    && (forall i :: 0 <= i < |steps| ==> Enabled(states[i], steps[i]) && states[i + 1] == Do(states[i], steps[i]))
  }

  predicate Initial(s: System) {
    && !s.stop && s.stopCalls == 0 && !s.exitCall && s.log == []
    && forall t :: t in s.threads ==> s.threads[t].Elsewhere?
  }

  lemma {:induction false} SoundEveryRun(states: seq<System>, steps: seq<Step>)
    requires IsRun(states, steps) && Initial(states[0])
    ensures Sound(states[|steps|])
    decreases |steps|
  {
    if steps != [] {
      var n := |steps| - 1;
      SoundEveryRun(states[..n + 1], steps[..n]);
      StepKeepsSound(states[n], steps[n]);
    }
  }

  /** The flags only ever go up. */
  lemma {:induction false} FlagsOnlyRise(states: seq<System>, steps: seq<Step>, i: nat)
    requires IsRun(states, steps) && Initial(states[0]) && i <= |steps|
    ensures states[i].stop ==> states[|steps|].stop
    ensures Exited(states[i]) ==> Exited(states[|steps|])
    decreases |steps|
  {
    if i < |steps| {
      var n := |steps| - 1;
      FlagsOnlyRise(states[..n + 1], steps[..n], i);
      SoundEveryRun(states[..n + 1], steps[..n]);
      StepKeepsSound(states[n], steps[n]);
    }
  }

  /** Whatever is interleaved: once every `stop` call has returned, no sleeper is still parked. */
  lemma NoSleeperLeft(states: seq<System>, steps: seq<Step>, t: ThreadId)
    requires IsRun(states, steps) && Initial(states[0])
    requires states[|steps|].stop && states[|steps|].stopCalls == 0 && t in states[|steps|].threads
    ensures states[|steps|].threads[t] != Parked(Sleep)
  {
    SoundEveryRun(states, steps);
  }

  /**
   * A sleep that returns says exactly whether a stop is set: at that moment, either way; and a false stays true of
   * it.
   */
  lemma SleepTells(states: seq<System>, steps: seq<Step>, i: nat, t: ThreadId, result: bool)
    requires IsRun(states, steps) && Initial(states[0]) && i < |steps|
    requires t in states[i].threads && states[i].threads[t] != Returned(Sleep, result)
    requires t in states[i + 1].threads && states[i + 1].threads[t] == Returned(Sleep, result)
    ensures result == !states[i + 1].stop
  {
    assert states[i + 1] == Do(states[i], steps[i]);
  }

  /**
   * A wait that returned true came after the guard: the poller's jobs were joined, its results applied once, the
   * core let go.
   */
  lemma ExitMeansOver(states: seq<System>, steps: seq<Step>, t: ThreadId)
    requires IsRun(states, steps) && Initial(states[0])
    requires t in states[|steps|].threads && states[|steps|].threads[t] == Returned(WaitForExit, true)
    ensures Exited(states[|steps|]) && AllOver(states[|steps|].log)
  {
    SoundEveryRun(states, steps);
    DroppedIsReleased(states[|steps|].log);
    ReleasedIsOver(states[|steps|].log);
  }

  // ---------------------------------------------------------------- the poller's log as steps of the machine

  /** Whatever the other threads are doing, the poller can go on exactly as its log may. */
  lemma PollFollowsTheLog(s: System, e: Event)
    requires Legal(s.log)
    ensures Enabled(s, Poll(e)) <==> Legal(s.log + [e])
  {
    assert (s.log + [e])[..|s.log|] == s.log;
  }

  lemma RunGoesOn(states: seq<System>, steps: seq<Step>, step: Step)
    requires IsRun(states, steps) && Enabled(states[|steps|], step)
    ensures IsRun(states + [Do(states[|steps|], step)], steps + [step])
  {
    var states', steps' := states + [Do(states[|steps|], step)], steps + [step];
    forall i | 0 <= i < |steps'| ensures Enabled(states'[i], steps'[i]) && states'[i + 1] == Do(states'[i], steps'[i]) {
      if i < |steps| {
        assert states'[i] == states[i] && states'[i + 1] == states[i + 1] && steps'[i] == steps[i];
      }
    }
  }

  function Polls(log: seq<Event>): seq<Step> {
    seq(|log|, i requires 0 <= i < |log| => Poll(log[i]))
  }

  /** Any log the poller's code keeps legal is a run of the machine, event by event. */
  lemma {:induction false} LogIsARun(s: System, log: seq<Event>) returns (states: seq<System>)
    requires Initial(s) && Legal(log)
    ensures IsRun(states, Polls(log)) && states[0] == s && states[|log|].log == log
    decreases |log|
  {
    if log == [] {
      states := [s];
    } else {
      var n := |log| - 1;
      var before, e := log[..n], log[n];
      var front := LogIsARun(s, before);
      assert before + [e] == log;
      PollFollowsTheLog(front[n], e);
      RunGoesOn(front, Polls(before), Poll(e));
      states := front + [Do(front[n], Poll(e))];
      assert Polls(log) == Polls(before) + [Poll(e)];
      assert states[n + 1] == Do(front[n], Poll(e));
    }
  }

  // ---------------------------------------------------------------- the signal's code

  /**
   * `Meanwhile` is whatever other threads do while the lock is free: flags only rise, and time passes. While a thread
   * that holds the guard waits, nobody drops it.
   */
  class StopSignal {
    var stop: bool
    var exited: bool
    var now: nat

    constructor ()
      ensures !stop && !exited && now == 0
    {
      stop, exited, now := false, false, 0;
    }

    method Meanwhile(guarded: bool)
      modifies this
      ensures (old(stop) ==> stop) && (old(exited) ==> exited) && now > old(now)
      ensures guarded ==> exited == old(exited)
    {
      var stopped: bool, gone: bool := *, *;
      var ticks: nat :| ticks >= 1;
      stop, exited, now := stop || stopped, exited || (gone && !guarded), now + ticks;
    }

    method Stop()
      modifies this`stop
      ensures stop
    {
      stop := true;
    }

    /** Parks the guarded thread until a stop or the time is up, looking again at every wakeup. */
    method SleepFor(dur: nat) returns (goOn: bool)
      modifies this
      ensures goOn == !stop
      ensures old(stop) ==> !goOn && now == old(now)
      ensures goOn ==> now >= old(now) + dur
      ensures exited == old(exited)
    {
      var until := now + dur;
      while !stop && now < until
        invariant old(stop) ==> stop && now == old(now)
        invariant exited == old(exited)
        decreases until - now
      {
        Meanwhile(true);
      }
      return !stop;
    }

    method WaitForExitWithin(bound: nat) returns (gone: bool)
      modifies this
      ensures gone == exited
      ensures old(exited) ==> gone && now == old(now)
      ensures !gone ==> now > old(now) + bound
      ensures old(stop) ==> stop
    {
      var deadline := now + bound;
      while !exited
        invariant old(exited) ==> exited && now == old(now)
        invariant old(stop) ==> stop
        decreases !exited, deadline + 1 - now
      {
        if now > deadline {
          return false;
        }
        Meanwhile(false);
      }
      return true;
    }
  }

  /** Dropping it is what marks the poller gone. */
  method DropGuard(signal: StopSignal)
    modifies signal`exited
    ensures signal.exited
  {
    signal.exited := true;
  }

  // ---------------------------------------------------------------- the poller's code

  const NAP_MS: nat := 80
  const BACKGROUND_NAP_MS: nat := 2000

  /**
   * What one tick finds: which jobs are finished, which are due, whether there is a relay to drain, whether anything is
   * queued to send.
   */
  datatype Tick = Tick(background: bool, finished: set<Kind>, due: set<Kind>, relays: bool, unsent: bool)

  /** A tick's turn at one kind of job: a finished one joined, and applied if it must be, and one started when due. */
  function Turn(k: Kind, job: Option<nat>, finished: bool, due: bool, next: nat): seq<Event> {
    (if job.None? || !finished then [] else if MustApply(k) then [Joined(k, job.value), Applied(k, job.value)]
     else [Joined(k, job.value)])
    + if (job.None? || finished) && due then [Started(k, next)] else []
  }

  /** Whether the relays are to be polled: their time has come, and no drain was running as the tick began. */
  predicate PollsRelays(t: Tick, drain: Option<nat>) {
    drain.None? && Drain in t.due
  }

  /** A job of this kind is to be started, `free` being whether none is left running. */
  predicate IsToStart(k: Kind, t: Tick, drain: Option<nat>, free: bool) {
    match k
    case Drain => PollsRelays(t, drain) && t.relays
    case Directory => free && PollsRelays(t, drain) && Directory in t.due
    case Outbox => free && t.unsent
    case Invite => free && Invite in t.due
  }

  /**
   * What a tick logs of one kind, `job` being what was running: that job joined exactly when it has finished, applied
   * exactly when joined and not to be dropped, and another started exactly when there is none left and it is due.
   */
  ghost predicate TicksAs(k: Kind, t: Tick, drain: Option<nat>, job: Option<nat>, events: seq<Event>) {
    && (forall id: nat :: Joined(k, id) in events <==> job == Some(id) && k in t.finished)
    && (forall id: nat :: Applied(k, id) in events <==> MustApply(k) && job == Some(id) && k in t.finished)
    && ((exists id: nat :: Started(k, id) in events) <==> IsToStart(k, t, drain, job.None? || k in t.finished))
  }

  /** The job of a kind that a log leaves running. */
  function RunningIn(log: seq<Event>, k: Kind): Option<nat> {
    if SlotOf(log, k).Flying? then Some(SlotOf(log, k).id) else None
  }

  /** A log after a tick's turns. */
  function Turns(t: Tick, log: seq<Event>, drain: Option<nat>, invite: Option<nat>, directory: Option<nat>,
                 outbox: Option<nat>, n0: nat, n1: nat, n2: nat, n3: nat): seq<Event> {
    FirstTurns(t, log, drain, invite, directory, n0, n1, n2) + DrainTurn(t, drain, n0).1
    + Turn(Outbox, outbox, Outbox in t.finished, t.unsent, n3)
  }

  function FirstTurns(t: Tick, log: seq<Event>, drain: Option<nat>, invite: Option<nat>, directory: Option<nat>,
                      n0: nat, n1: nat, n2: nat): seq<Event> {
    log + DrainTurn(t, drain, n0).0
    + Turn(Invite, invite, Invite in t.finished, Invite in t.due, n1)
    + Turn(Directory, directory, Directory in t.finished, PollsRelays(t, drain) && Directory in t.due, n2)
  }

  lemma TurnsTick(t: Tick, log: seq<Event>, log': seq<Event>, n0: nat, n1: nat, n2: nat, n3: nat)
    requires log' == Turns(t, log, RunningIn(log, Drain), RunningIn(log, Invite), RunningIn(log, Directory),
                           RunningIn(log, Outbox), n0, n1, n2, n3)
    ensures TickedTo(t, log, log')
  {
    var (drain, invite) := (RunningIn(log, Drain), RunningIn(log, Invite));
    var (directory, outbox) := (RunningIn(log, Directory), RunningIn(log, Outbox));
    var (first, last) := DrainTurn(t, drain, n0);
    var i := Turn(Invite, invite, Invite in t.finished, Invite in t.due, n1);
    var d := Turn(Directory, directory, Directory in t.finished, PollsRelays(t, drain) && Directory in t.due, n2);
    var o := Turn(Outbox, outbox, Outbox in t.finished, t.unsent, n3);
    DrainTurnTells(t, drain, n0);
    TurnTells(Invite, t, drain, invite, Invite in t.due, n1);
    TurnTells(Directory, t, drain, directory, PollsRelays(t, drain) && Directory in t.due, n2);
    TurnTells(Outbox, t, drain, outbox, t.unsent, n3);
    TickTells(t, drain, invite, directory, outbox, first, i, d, last, o);
    Regrouped(log, first, i, d, last, o);
    forall k: Kind ensures TicksAs(k, t, drain, RunningIn(log, k), log'[|log|..]) {
      match k {
        case Drain =>
        case Invite =>
        case Directory =>
        case Outbox =>
      }
    }
  }

  /** What one tick adds to a log. */
  ghost predicate TickedTo(t: Tick, log: seq<Event>, log': seq<Event>) {
    && log <= log'
    && forall k: Kind :: TicksAs(k, t, RunningIn(log, Drain), RunningIn(log, k), log'[|log|..])
  }

  /** `logs` are the logs between these ticks. */
  ghost predicate TickedThrough(ticks: seq<Tick>, logs: seq<seq<Event>>) {
    |logs| == |ticks| + 1 && forall i :: 0 <= i < |ticks| ==> TickedTo(ticks[i], logs[i], logs[i + 1])
  }

  lemma TickedOnce(ticks: seq<Tick>, logs: seq<seq<Event>>, t: Tick, log: seq<Event>)
    requires TickedThrough(ticks, logs) && TickedTo(t, logs[|ticks|], log)
    ensures TickedThrough(ticks + [t], logs + [log])
  {
    var ticks', logs' := ticks + [t], logs + [log];
    forall i | 0 <= i < |ticks'| ensures TickedTo(ticks'[i], logs'[i], logs'[i + 1]) {
      if i < |ticks| {
        assert ticks'[i] == ticks[i] && logs'[i] == logs[i] && logs'[i + 1] == logs[i + 1];
      }
    }
  }

  function KindOf(e: Event): Option<Kind> {
    match e
    case Started(k, _) => Some(k)
    case Joined(k, _) => Some(k)
    case Applied(k, _) => Some(k)
    case _ => None
  }

  /** A turn logs its own kind only, and that as it should. */
  lemma TurnTells(k: Kind, t: Tick, drain: Option<nat>, job: Option<nat>, due: bool, next: nat)
    requires !k.Drain?
    requires IsToStart(k, t, drain, job.None? || k in t.finished) <==> (job.None? || k in t.finished) && due
    ensures var events := Turn(k, job, k in t.finished, due, next);
      && TicksAs(k, t, drain, job, events)
      && (forall e :: e in events ==> KindOf(e) == Some(k))
  {
    var events := Turn(k, job, k in t.finished, due, next);
    if (job.None? || k in t.finished) && due {
      assert Started(k, next) in events;
    }
  }

  /** What a drain's part of a tick logs, before the other kinds and after. */
  function DrainTurn(t: Tick, drain: Option<nat>, next: nat): (seq<Event>, seq<Event>) {
    var joined := drain.Some? && Drain in t.finished;
    ((if joined then [Joined(Drain, drain.value)] else [])
     + (if PollsRelays(t, drain) && t.relays then [Started(Drain, next)] else []),
     if joined then [Applied(Drain, drain.value)] else [])
  }

  lemma DrainTurnTells(t: Tick, drain: Option<nat>, next: nat)
    ensures var (first, last) := DrainTurn(t, drain, next);
      && TicksAs(Drain, t, drain, drain, first + last)
      && (forall e :: e in first + last ==> KindOf(e) == Some(Drain))
  {
    var (first, last) := DrainTurn(t, drain, next);
    if PollsRelays(t, drain) && t.relays {
      assert Started(Drain, next) in first + last;
    }
  }

  /** Events of other kinds make no difference to what is logged of one. */
  lemma OwnKindCounts(k: Kind, t: Tick, drain: Option<nat>, job: Option<nat>, own: seq<Event>, events: seq<Event>)
    requires TicksAs(k, t, drain, job, own)
    requires forall e :: KindOf(e) == Some(k) ==> (e in events <==> e in own)
    ensures TicksAs(k, t, drain, job, events)
  {
    forall id: nat
      ensures Joined(k, id) in events <==> Joined(k, id) in own
      ensures Applied(k, id) in events <==> Applied(k, id) in own
      ensures Started(k, id) in events <==> Started(k, id) in own
    {
      assert KindOf(Joined(k, id)) == KindOf(Applied(k, id)) == KindOf(Started(k, id)) == Some(k);
    }
  }

  lemma Regrouped(before: seq<Event>, a: seq<Event>, b: seq<Event>, c: seq<Event>, d: seq<Event>, e: seq<Event>)
    ensures before <= before + a + b + c + d + e && (before + a + b + c + d + e)[|before|..] == a + b + c + d + e
  {
  }

  /** The whole tick: what each kind's turn logged is what the tick logged of it. */
  lemma TickTells(t: Tick, drain: Option<nat>, invite: Option<nat>, directory: Option<nat>, outbox: Option<nat>,
                  first: seq<Event>, i: seq<Event>, d: seq<Event>, last: seq<Event>, o: seq<Event>)
    requires TicksAs(Drain, t, drain, drain, first + last) && TicksAs(Invite, t, drain, invite, i)
    requires TicksAs(Directory, t, drain, directory, d) && TicksAs(Outbox, t, drain, outbox, o)
    requires forall e :: e in first + last ==> KindOf(e) == Some(Drain)
    requires forall e :: e in i ==> KindOf(e) == Some(Invite)
    requires forall e :: e in d ==> KindOf(e) == Some(Directory)
    requires forall e :: e in o ==> KindOf(e) == Some(Outbox)
    ensures var events := first + i + d + last + o;
      && TicksAs(Drain, t, drain, drain, events) && TicksAs(Invite, t, drain, invite, events)
      && TicksAs(Directory, t, drain, directory, events) && TicksAs(Outbox, t, drain, outbox, events)
  {
    var events := first + i + d + last + o;
    forall e ensures e in events <==> e in first + last || e in i || e in d || e in o {
    }
    OwnKindCounts(Drain, t, drain, drain, first + last, events);
    OwnKindCounts(Invite, t, drain, invite, i, events);
    OwnKindCounts(Directory, t, drain, directory, d, events);
    OwnKindCounts(Outbox, t, drain, outbox, o, events);
  }

  class Poller {
    var drainJob: Option<nat>
    var inviteJob: Option<nat>
    var directoryJob: Option<nat>
    var outboxJob: Option<nat>
    var next: nat
    ghost var log: seq<Event>

    constructor ()
      ensures Valid() && log == []
    {
      drainJob, inviteJob, directoryJob, outboxJob := None, None, None, None;
      next, log := 0, [];
    }

    ghost predicate Holds(job: Option<nat>, k: Kind)
      reads this`log
    {
      SlotOf(log, k) == if job.Some? then Flying(job.value) else Free
    }

    /** Between ticks: the jobs held are the ones running, and nothing is in hand. */
    ghost predicate Valid()
      reads this
    {
      && Legal(log) && CoreReleased !in log && GuardDropped !in log
      && (forall k: Kind, id: nat :: Started(k, id) in log ==> id < next)
      && Holds(drainJob, Drain) && Holds(inviteJob, Invite)
      && Holds(directoryJob, Directory) && Holds(outboxJob, Outbox)
    }

    ghost method Note(e: Event)
      requires Legal(log) && MayFollow(log, e)
      modifies this`log
      ensures log == old(log) + [e] && Legal(log)
      ensures forall x :: x in log <==> x in old(log) || x == e
      ensures forall k :: SlotOf(log, k) == match e
                case Started(k', id) => if k' == k then Flying(id) else SlotOf(old(log), k)
                case Joined(k', id) =>
                  if k' != k then SlotOf(old(log), k) else if MustApply(k) then InHand(id) else Free
                case Applied(k', _) => if k' == k then Free else SlotOf(old(log), k)
                case _ => SlotOf(old(log), k)
    {
      assert (log + [e])[..|log|] == log;
      log := log + [e];
    }

    /** Spawn a job of a kind none of which is running. */
    method Spawn(ghost k: Kind) returns (job: Option<nat>)
      requires Legal(log) && CoreReleased !in log && GuardDropped !in log && SlotOf(log, k) == Free
      requires forall k': Kind, id: nat :: Started(k', id) in log ==> id < next
      modifies this`log, this`next
      ensures job == Some(old(next)) && next == old(next) + 1
      ensures Legal(log) && log == old(log) + [Started(k, old(next))]
      ensures forall k': Kind, id: nat :: Started(k', id) in log ==> id < next
      ensures CoreReleased !in log && GuardDropped !in log
      ensures forall k' :: SlotOf(log, k') == if k' == k then Flying(job.value) else SlotOf(old(log), k')
    {
      job := Some(next);
      Note(Started(k, next));
      next := next + 1;
    }

    ghost predicate InHandOr(harvest: Option<nat>)
      reads this`log, this`drainJob
    {
      if harvest.Some? then SlotOf(log, Drain) == InHand(harvest.value) && drainJob.None? else Holds(drainJob, Drain)
    }

    /** A finished drain's harvest is taken in hand; a new drain starts only when none was running, for a relay. */
    method TickDrain(t: Tick) returns (harvest: Option<nat>, relayDue: bool)
      requires Going() && Holds(drainJob, Drain)
      modifies this`log, this`next, this`drainJob
      ensures Going() && InHandOr(harvest) && relayDue == PollsRelays(t, old(drainJob)) && next >= old(next)
      ensures harvest == if Drain in t.finished then old(drainJob) else None
      ensures log == old(log) + DrainTurn(t, old(drainJob), old(next)).0
      ensures Leaves(Invite) && Leaves(Directory) && Leaves(Outbox)
    {
      relayDue, harvest := drainJob.None? && Drain in t.due, None;
      if drainJob.Some? && Drain in t.finished {
        harvest := drainJob;
        Note(Joined(Drain, drainJob.value));
        drainJob := None;
      }
      if relayDue && t.relays {
        drainJob := Spawn(Drain);
      }
    }

    /** The tick's apply: the harvest in hand goes to the core, once. */
    method ApplyTick(harvest: Option<nat>)
      requires Going() && InHandOr(harvest)
      modifies this`log
      ensures Going() && Holds(drainJob, Drain)
      ensures log == old(log) + if harvest.Some? then [Applied(Drain, harvest.value)] else []
      ensures Leaves(Invite) && Leaves(Directory) && Leaves(Outbox)
    {
      if harvest.Some? {
        Note(Applied(Drain, harvest.value));
      }
    }

    /** One tick: collect what finished, start what is due, apply what is in hand. */
    method RunTick(t: Tick)
      requires Valid()
      modifies this
      ensures Valid() && TickedTo(t, old(log), log)
    {
      ghost var before, n0 := log, next;
      assert RunningIn(log, Drain) == drainJob && RunningIn(log, Invite) == inviteJob;
      assert RunningIn(log, Directory) == directoryJob && RunningIn(log, Outbox) == outboxJob;
      ghost var n1, n2, n3 := TakeTurns(t);
      TurnsTick(t, before, log, n0, n1, n2, n3);
    }

    /** The turns of a tick, in order. */
    method TakeTurns(t: Tick) returns (ghost n1: nat, ghost n2: nat, ghost n3: nat)
      requires Valid()
      modifies this
      ensures Valid()
      ensures log == Turns(t, old(log), old(drainJob), old(inviteJob), old(directoryJob), old(outboxJob), old(next),
                           n1, n2, n3)
    {
      var harvest;
      harvest, n1, n2 := TakeFirstTurns(t);
      ApplyTick(harvest);
      n3 := next;
      TickOutbox(t);
    }

    method TakeFirstTurns(t: Tick) returns (harvest: Option<nat>, ghost n1: nat, ghost n2: nat)
      requires Valid()
      modifies this`log, this`next, this`drainJob, this`inviteJob, this`directoryJob
      ensures Going() && InHandOr(harvest) && (harvest.Some? <==> old(drainJob).Some? && Drain in t.finished)
      ensures Holds(inviteJob, Invite) && Holds(directoryJob, Directory) && Holds(outboxJob, Outbox)
      ensures harvest == if Drain in t.finished then old(drainJob) else None
      ensures log == FirstTurns(t, old(log), old(drainJob), old(inviteJob), old(directoryJob), old(next), n1, n2)
    {
      var relayDue;
      harvest, relayDue := TickDrain(t);
      n1 := next;
      TickInvites(t);
      n2 := next;
      TickDirectory(t, relayDue);
    }

    /** Where the slots of the kinds a part of the tick does not touch stay as they are. */
    twostate predicate Leaves(k: Kind)
      reads this`log
    {
      old(log) <= log && SlotOf(log, k) == SlotOf(old(log), k)
    }

    ghost predicate Going()
      reads this`log, this`next
    {
      && Legal(log) && CoreReleased !in log && GuardDropped !in log
      && (forall k: Kind, id: nat :: Started(k, id) in log ==> id < next)
    }

    /** A finished job joined, and its result applied where it must be. */
    ghost method End(k: Kind, id: nat)
      requires Going() && SlotOf(log, k) == Flying(id)
      modifies this`log
      ensures Going() && SlotOf(log, k) == Free && old(log) <= log
      ensures log == old(log) + if MustApply(k) then [Joined(k, id), Applied(k, id)] else [Joined(k, id)]
      ensures forall k' :: k' != k ==> SlotOf(log, k') == SlotOf(old(log), k')
    {
      Note(Joined(k, id));
      if MustApply(k) {
        Note(Applied(k, id));
      }
    }

    /** A turn at one kind of job, of which `job` is held. */
    method TakeTurn(job: Option<nat>, ghost k: Kind, finished: bool, due: bool) returns (job': Option<nat>)
      requires Going() && Holds(job, k)
      modifies this`log, this`next
      ensures Going() && Holds(job', k) && next >= old(next)
      ensures log == old(log) + Turn(k, job, finished, due, old(next))
      ensures forall k' :: k' != k ==> SlotOf(log, k') == SlotOf(old(log), k')
    {
      job' := job;
      if job'.Some? && finished {
        End(k, job'.value);
        job' := None;
      }
      if job'.None? && due {
        job' := Spawn(k);
      }
    }

    method TickInvites(t: Tick)
      requires Going() && Holds(inviteJob, Invite)
      modifies this`log, this`next, this`inviteJob
      ensures Going() && Holds(inviteJob, Invite) && next >= old(next)
      ensures log == old(log) + Turn(Invite, old(inviteJob), Invite in t.finished, Invite in t.due, old(next))
      ensures Leaves(Drain) && Leaves(Outbox) && Leaves(Directory)
    {
      inviteJob := TakeTurn(inviteJob, Invite, Invite in t.finished, Invite in t.due);
    }

    method TickDirectory(t: Tick, relayDue: bool)
      requires Going() && Holds(directoryJob, Directory)
      modifies this`log, this`next, this`directoryJob
      ensures Going() && Holds(directoryJob, Directory) && next >= old(next)
      ensures log == old(log) + Turn(Directory, old(directoryJob), Directory in t.finished,
                                     relayDue && Directory in t.due, old(next))
      ensures Leaves(Drain) && Leaves(Outbox) && Leaves(Invite)
    {
      directoryJob := TakeTurn(directoryJob, Directory, Directory in t.finished, relayDue && Directory in t.due);
    }

    /** A finished round is applied before the next is taken: one round at a time. */
    method TickOutbox(t: Tick)
      requires Going() && Holds(outboxJob, Outbox)
      modifies this`log, this`next, this`outboxJob
      ensures Going() && Holds(outboxJob, Outbox)
      ensures log == old(log) + Turn(Outbox, old(outboxJob), Outbox in t.finished, t.unsent, old(next))
      ensures Leaves(Drain) && Leaves(Invite) && Leaves(Directory)
    {
      outboxJob := TakeTurn(outboxJob, Outbox, Outbox in t.finished, t.unsent);
    }

    /** Join what is running, in order, and apply what must be. */
    method JoinRunning()
      requires Valid()
      modifies this
      ensures Going() && old(log) <= log
      ensures SlotOf(log, Drain) == Free && SlotOf(log, Directory) == Free && SlotOf(log, Outbox) == Free
    {
      drainJob := JoinOne(drainJob, Drain);
      directoryJob := JoinOne(directoryJob, Directory);
      outboxJob := JoinOne(outboxJob, Outbox);
    }

    method JoinOne(job: Option<nat>, ghost k: Kind) returns (none: Option<nat>)
      requires Going() && Holds(job, k)
      modifies this`log
      ensures Going() && old(log) <= log && none == None && SlotOf(log, k) == Free
      ensures forall k' :: k' != k ==> SlotOf(log, k') == SlotOf(old(log), k')
    {
      if job.Some? {
        End(k, job.value);
      }
      return None;
    }

    /** The end of the thread: what is running is joined and applied, the rest abandoned, the core let go. */
    method TearDown(signal: StopSignal)
      requires Valid() && !signal.exited
      modifies this, signal`exited
      ensures Legal(log) && old(log) <= log && GuardDropped in log && signal.exited
      ensures AllOver(log)
    {
      JoinRunning();
      Note(Abandoned);
      Note(CoreReleased);
      Note(GuardDropped);
      ReleasedIsOver(log);
      DropGuard(signal);
    }

    /**
     * The thread's life, as far as `ticks` shows it: each in turn until it sees a stop, at the top of the loop or out
     * of its sleep; then `over`, and wound up. `logs` are the logs between the ticks it ran.
     */
    method Run(ticks: seq<Tick>, signal: StopSignal) returns (over: bool, ghost logs: seq<seq<Event>>)
      requires Valid() && !signal.exited
      modifies this, signal
      ensures over ==> signal.stop && signal.exited && Legal(log) && GuardDropped in log && AllOver(log)
      ensures !over ==> Valid() && !signal.exited
      ensures old(signal.stop) ==> over && signal.now == old(signal.now) && |logs| == 1
      ensures 0 < |logs| <= |ticks| + 1 && logs[0] == old(log) && TickedThrough(ticks[..|logs| - 1], logs)
      ensures !over ==> |logs| == |ticks| + 1 && log == logs[|ticks|]
      ensures over ==> logs[|logs| - 1] <= log
    {
      var i := 0;
      logs := [log];
      while !signal.stop
        invariant Valid() && !signal.exited && i <= |ticks|
        invariant old(signal.stop) ==> signal.stop && signal.now == old(signal.now) && i == 0
        invariant |logs| == i + 1 && logs[0] == old(log) && logs[i] == log && TickedThrough(ticks[..i], logs)
        decreases |ticks| - i
      {
        if i == |ticks| {
          assert ticks[..i] == ticks;
          return false, logs;
        }
        var goOn := signal.SleepFor(if ticks[i].background then BACKGROUND_NAP_MS else NAP_MS);
        if !goOn {
          break;
        }
        RunTick(ticks[i]);
        TickedOnce(ticks[..i], logs, ticks[i], log);
        assert ticks[..i + 1] == ticks[..i] + [ticks[i]];
        logs := logs + [log];
        i := i + 1;
      }
      TearDown(signal);
      return true, logs;
    }
  }
}
