/**
 * What a result moves on: an arrival releases the next held frame, a failure makes the next try wait longer, and a
 * control frame waits until it lands.
 */
module Progress {
  import opened Wrappers
  import opened RelayList
  import opened Posting
  import opened Outbox
  import opened InFlight
  import opened HoldOrder
  import opened Runs
  import opened NoLoss
  import opened Effects

  // ---------------------------------------------------------------- one contact's share of the queue

  function CountFor(held: seq<HeldSend>, c: Contact): nat {
    if held == [] then 0
    else CountFor(held[..|held| - 1], c) + if held[|held| - 1].contact == c then 1 else 0
  }

  lemma {:induction false} CountSplits(a: seq<HeldSend>, b: seq<HeldSend>, c: Contact)
    ensures CountFor(a + b, c) == CountFor(a, c) + CountFor(b, c)
  {
    if b == [] {
      assert a + b == a;
    } else {
      var front, last := b[..|b| - 1], b[|b| - 1];
      CountSplits(a, front, c);
      assert (a + b)[..|a + b| - 1] == a + front;
    }
  }

  lemma CountWithout(held: seq<HeldSend>, i: nat, c: Contact)
    requires i < |held| && held[i].contact == c
    ensures CountFor(held[..i] + held[i + 1..], c) == CountFor(held, c) - 1
  {
    CountMiddle(held[..i], held[i], held[i + 1..], c);
    PutBack(held, i);
  }

  lemma CountMiddle(front: seq<HeldSend>, h: HeldSend, back: seq<HeldSend>, c: Contact)
    requires h.contact == c
    ensures CountFor(front + [h] + back, c) == CountFor(front + back, c) + 1
  {
    CountSplits(front, back, c);
    CountSplits(front + [h], back, c);
    CountSplits(front, [h], c);
    CountOne(h, c);
  }

  lemma CountOne(h: HeldSend, c: Contact)
    ensures CountFor([h], c) == if h.contact == c then 1 else 0
  {
    assert [h][..0] == [];
  }

  lemma {:induction false} CountPositive(held: seq<HeldSend>, c: Contact)
    ensures CountFor(held, c) > 0 <==> exists h :: h in held && h.contact == c
  {
    if held != [] {
      var front, last := held[..|held| - 1], held[|held| - 1];
      CountPositive(front, c);
      assert held == front + [last];
    }
  }

  lemma {:induction false} CountKeptOpen(held: seq<HeldSend>, chats: map<Contact, Chat>, c: Contact)
    requires c in chats && !chats[c].closed
    ensures CountFor(KeepOpen(held, chats), c) == CountFor(held, c)
  {
    if held != [] {
      var front, last := held[..|held| - 1], held[|held| - 1];
      CountKeptOpen(front, chats, c);
      var kept := KeepOpen(front, chats);
      assert (kept + [last])[..|kept|] == kept;
    }
  }

  lemma {:induction false} CountSameContacts(a: seq<HeldSend>, b: seq<HeldSend>, c: Contact)
    requires |a| == |b| && forall i :: 0 <= i < |a| ==> a[i].contact == b[i].contact
    ensures CountFor(a, c) == CountFor(b, c)
  {
    if a != [] {
      CountSameContacts(a[..|a| - 1], b[..|b| - 1], c);
    }
  }

  lemma FirstOf(held: seq<HeldSend>, c: Contact) returns (i: nat)
    requires exists h :: h in held && h.contact == c
    ensures i < |held| && held[i].contact == c && Oldest(held, i)
  {
    i := 0;
    while held[i].contact != c
      invariant i < |held|
      invariant forall j :: 0 <= j < i ==> held[j].contact != c
      invariant exists j :: i <= j < |held| && held[j].contact == c
      decreases |held| - i
    {
      i := i + 1;
    }
  }

  // ---------------------------------------------------------------- an arrival releases the next frame

  /** `c`'s oldest entry is in flight, on a send queued after the first `n`. */
  ghost predicate NextIsSent(s: State, n: nat, c: Contact) {
    exists i, k :: 0 <= i < |s.held| && n <= k < |s.outbox|
      && s.held[i].contact == c && Oldest(s.held, i) && s.held[i].inFlight && HeldFor(s.outbox[k], s.held[i])
  }

  lemma FlushReleasesNext(s: State, c: Contact, directFirst: bool, now: nat)
    requires OpenChat(s, c) && MayRetry(s, c, now)
    requires forall h :: h in s.held && h.contact == c ==> !h.inFlight
    ensures var s' := FlushHeld(s, Some(c), directFirst, now);
      && CountFor(s'.held, c) == CountFor(s.held, c)
      && (CountFor(s.held, c) > 0 ==> NextIsSent(s', |s.outbox|, c))
  {
    var p := Prune(s);
    KeepOpenExact(s.held, s.chats);
    CountKeptOpen(s.held, s.chats, c);
    FlushCounts(s, c, directFirst, now);
    CountPositive(p.held, c);
    if CountFor(s.held, c) > 0 {
      var i := FirstOf(p.held, c);
      assert p.held[i] in p.held;
      assert Goes(p, Some(c), now, i);
      FlushSendsIt(s, c, directFirst, now, i);
    }
  }

  lemma FlushCounts(s: State, c: Contact, directFirst: bool, now: nat)
    ensures CountFor(FlushHeld(s, Some(c), directFirst, now).held, c) == CountFor(Prune(s).held, c)
  {
    var p, s' := Prune(s), FlushHeld(s, Some(c), directFirst, now);
    var going := Going(p, Some(c), now, |p.held|);
    assert s'.held == Marked(p.held, going);
    CountSameContacts(s'.held, p.held, c);
  }

  lemma FlushSendsIt(s: State, c: Contact, directFirst: bool, now: nat, i: nat)
    requires i < |Prune(s).held| && Goes(Prune(s), Some(c), now, i)
    requires Prune(s).held[i].contact == c && Oldest(Prune(s).held, i)
    ensures NextIsSent(FlushHeld(s, Some(c), directFirst, now), |s.outbox|, c)
  {
    var p, s' := Prune(s), FlushHeld(s, Some(c), directFirst, now);
    var going := Going(p, Some(c), now, |p.held|);
    GoingExact(p, Some(c), now, |p.held|);
    FlushLaunches(p, Some(c), directFirst, now);
    var outs := HeldOutbounds(p, going, directFirst);
    var k := LaunchSends(p.held, going, Marked(p.held, going), outs, i);
    SentBehind(s', s.outbox, outs, c, i, k);
  }

  lemma SentBehind(s: State, before: seq<Outbound>, outs: seq<Outbound>, c: Contact, i: nat, k: nat)
    requires s.outbox == before + outs && i < |s.held| && k < |outs|
    requires s.held[i].contact == c && Oldest(s.held, i) && s.held[i].inFlight && HeldFor(outs[k], s.held[i])
    ensures NextIsSent(s, |before|, c)
  {
    assert s.outbox[|before| + k] == outs[k];
  }

  lemma LaunchSends(held: seq<HeldSend>, going: seq<nat>, held': seq<HeldSend>, outs: seq<Outbound>, i: nat)
    returns (k: nat)
    requires Launches(held, going, held', outs) && i < |held| && i in going && Oldest(held, i)
    ensures k < |outs| && HeldFor(outs[k], held'[i])
    ensures held'[i].inFlight && held'[i].contact == held[i].contact && Oldest(held', i)
  {
    k :| 0 <= k < |going| && going[k] == i;
  }

  lemma ArrivalReleasesNext(s: State, i: nat, c: Contact, now: nat)
    requires i < |s.held| && s.held[i].contact == c
    requires OpenChat(s, c) && !Outdated(s, c) && c !in s.backoff
    requires forall j :: 0 <= j < |s.held| && j != i && s.held[j].contact == c ==> !s.held[j].inFlight
    ensures var s' := HeldArrived(s, i, Direct, now);
      && CountFor(s'.held, c) == CountFor(s.held, c) - 1
      && (CountFor(s'.held, c) > 0 ==> NextIsSent(s', |s.outbox|, c))
  {
    var h := s.held[i];
    var gone := s.(held := s.held[..i] + s.held[i + 1..]);
    var waiting := if h.msg.None? then gone
                   else gone.(awaiting := gone.awaiting + [AwaitingReceipt(h.contact, h.msg.value, now)]);
    CountWithout(s.held, i, c);
    forall g | g in waiting.held && g.contact == c ensures !g.inFlight {
      var k :| 0 <= k < |waiting.held| && waiting.held[k] == g;
      assert s.held[if k < i then k else k + 1] == g;
    }
    FlushReleasesNext(waiting, c, true, now);
  }

  /**
   * A direct arrival of a held frame takes exactly that frame out of its contact's queue and, while any is left,
   * puts the oldest on its way.
   */
  lemma DirectSuccessAdvances(s: System, c: Contact, h: HeldSend, now: nat)
    requires Coherent(s) && FifoOf(s, c) && OpenChat(s.node, c) && !Outdated(s.node, c) && c != s.node.me
    requires s.job != [] && s.results != [] && s.results[0].Direct?
    requires h in s.node.held && h.contact == c && s.job[0].done == Held(h.bytes)
    ensures var node' := ApplyOne(s.node, Finish(s.job[0], Direct), now);
      && CountFor(node'.held, c) == CountFor(s.node.held, c) - 1
      && (forall g :: g in node'.held ==> g.bytes != h.bytes)
      && (CountFor(node'.held, c) > 0 ==> NextIsSent(node', |s.node.outbox|, c))
  {
    var f := Finish(s.job[0], Direct);
    assert s.job[0] in Traffic(s);
    assert HeldFor(s.job[0], h);
    var settled := Rescued(Clocked(s.node, f, now), f);
    var i := FoundAt(s.node.holdLog, settled.held, h);
    OneInFlight(s, c, i);
    ArrivalReleasesNext(settled, i, c, now);
    ArrivedIsGone(settled, i, now);
    assert ApplyOne(s.node, f, now) == HeldArrived(settled, i, Direct, now);
  }

  // A run to such a state: one saved frame for an open chat with no relay route, flushed, taken, and handed over.

  function OneHeld(me: Contact, c: Contact, b: Frame): State {
    Alone(me, c).(held := [HeldSend(c, None, b, false)], holdLog := [b])
  }

  function ItsSend(c: Contact, b: Frame): Outbound {
    Outbound(DetachedSend(None, [], Some(c), "", "c.onion", b, true), DirectThenRelay, Held(b))
  }

  function OneGoing(me: Contact, c: Contact, b: Frame): State {
    OneHeld(me, c, b).(held := [HeldSend(c, None, b, true)])
  }

  lemma OneGoes(me: Contact, c: Contact, b: Frame)
    ensures FlushHeld(OneHeld(me, c, b), None, false, 0) == OneGoing(me, c, b).(outbox := [ItsSend(c, b)])
  {
    var s := OneHeld(me, c, b);
    assert s.held[..0] == [];
    assert KeepOpen(s.held, s.chats) == s.held;
    var p := Prune(s);
    assert Going(p, None, 0, 1) == Going(p, None, 0, 0) + [0];
  }

  function HandOver(me: Contact, c: Contact, b: Frame): seq<System> {
    var (going, out) := (OneGoing(me, c, b), ItsSend(c, b));
    [System(OneHeld(me, c, b), [], [], {}, [], {b}), System(going.(outbox := [out]), [], [], {}, [], {b}),
     System(going, [out], [], {}, [], {b}), System(going, [out], [Direct], {}, [out], {b})]
  }

  const HAND_OVER: seq<Step> := [FlushHeldNow(None, false, 0), TakeAll, RunNext(Direct)]

  lemma OneHeldLaunches(me: Contact, c: Contact, b: Frame)
    ensures Launched(System(OneHeld(me, c, b), [], [], {}, [], {b}))
  {
    assert HeldFrames(OneHeld(me, c, b).held) == [b];
  }

  lemma HandOverRuns(me: Contact, c: Contact, b: Frame)
    ensures IsRun(HandOver(me, c, b), HAND_OVER) && Launched(HandOver(me, c, b)[0])
  {
    OneGoes(me, c, b);
    OneHeldLaunches(me, c, b);
    var states := HandOver(me, c, b);
    assert Do(states[0], HAND_OVER[0]) == states[1];
    assert Do(states[1], HAND_OVER[1]) == states[2];
    assert Do(states[2], HAND_OVER[2]) == states[3];
  }

  /** What `DirectSuccessAdvances` asks for is so in a state some run reaches. */
  lemma ArrivalIsReached(me: Contact, c: Contact, b: Frame) returns (states: seq<System>, steps: seq<Step>)
    requires c != me
    ensures IsRun(states, steps) && Launched(states[0])
    ensures var s := states[|steps|];
      && Coherent(s) && FifoOf(s, c) && ResultsRecorded(s) && OpenChat(s.node, c) && !Outdated(s.node, c)
      && !HasRoute(s.node, c) && c != s.node.me && HeldEntry(s, c, b)
      && s.job != [] && s.results != [] && s.results[0].Direct?
      && exists h :: h in s.node.held && h.contact == c && s.job[0].done == Held(h.bytes)
  {
    states, steps := HandOver(me, c, b), HAND_OVER;
    HandOverRuns(me, c, b);
    CoherentEveryRun(states, steps);
    FifoEveryRun(states, steps, c);
    RecordedEveryRun(states, steps);
    assert HeldSend(c, None, b, true) in states[3].node.held;
  }

  lemma FoundAt(log: seq<Frame>, held: seq<HeldSend>, h: HeldSend) returns (i: nat)
    requires Ordered(log, held) && h in held
    ensures i < |held| && held[i] == h && FindHeld(held, h.bytes) == Some(i)
    ensures forall j :: 0 <= j < |held| && j != i ==> held[j].bytes != h.bytes
  {
    FindHeldExact(held, h.bytes);
    i := IndexOf(held, h);
    OrderedApart(log, held, i);
  }

  lemma ArrivedIsGone(s: State, i: nat, now: nat)
    requires i < |s.held| && forall j :: 0 <= j < |s.held| && j != i ==> s.held[j].bytes != s.held[i].bytes
    ensures forall g :: g in HeldArrived(s, i, Direct, now).held ==> g.bytes != s.held[i].bytes
  {
    var h := s.held[i];
    var gone := s.(held := s.held[..i] + s.held[i + 1..]);
    var waiting := if h.msg.None? then gone
                   else gone.(awaiting := gone.awaiting + [AwaitingReceipt(h.contact, h.msg.value, now)]);
    CutOut(s.held, i);
    forall k | 0 <= k < |waiting.held| ensures waiting.held[k].bytes != h.bytes {
    }
    FlushKeepsBytesOut(waiting, Some(h.contact), true, now, h.bytes);
  }

  lemma FlushKeepsBytesOut(s: State, only: Option<Contact>, directFirst: bool, now: nat, b: Frame)
    requires forall h :: h in s.held ==> h.bytes != b
    ensures forall h :: h in FlushHeld(s, only, directFirst, now).held ==> h.bytes != b
  {
    var p, s' := Prune(s), FlushHeld(s, only, directFirst, now);
    KeepOpenExact(s.held, s.chats);
    assert s'.held == Marked(p.held, Going(p, only, now, |p.held|));
    forall k | 0 <= k < |s'.held| ensures s'.held[k].bytes != b {
      assert p.held[k] in p.held;
    }
  }

  /** While the contact is too old to read what we send, an arrival releases nothing to it. */
  lemma OutdatedReleasesNothing(s: State, i: nat, now: nat)
    requires i < |s.held| && Outdated(s, s.held[i].contact)
    ensures HeldArrived(s, i, Direct, now).outbox == s.outbox
  {
    var h := s.held[i];
    var gone := s.(held := s.held[..i] + s.held[i + 1..]);
    var waiting := if h.msg.None? then gone
                   else gone.(awaiting := gone.awaiting + [AwaitingReceipt(h.contact, h.msg.value, now)]);
    NoneGoes(Prune(waiting), h.contact, now, |Prune(waiting).held|);
  }

  lemma {:induction false} NoneGoes(s: State, c: Contact, now: nat, n: nat)
    requires n <= |s.held| && Outdated(s, c)
    ensures Going(s, Some(c), now, n) == []
  {
    if n > 0 {
      NoneGoes(s, c, now, n - 1);
    }
  }

  // ---------------------------------------------------------------- how long a retry waits

  /** The state after direct-only failures at these times. */
  function FailedAt(s: State, c: Contact, times: seq<nat>): State {
    if times == [] then s else RetryFailed(FailedAt(s, c, times[..|times| - 1]), c, times[|times| - 1])
  }

  function Doubled(n: nat): nat {
    if n == 0 then HELD_RETRY_FIRST_SECS else 2 * Doubled(n - 1)
  }

  function RetryCap(background: bool): nat {
    if background then HELD_RETRY_CAP_BACKGROUND_SECS else HELD_RETRY_CAP_OPEN_SECS
  }

  lemma {:induction false} DoubledGrows(n: nat)
    ensures Doubled(n) >= HELD_RETRY_FIRST_SECS
  {
    if n > 0 {
      DoubledGrows(n - 1);
    }
  }

  /**
   * From a contact just heard from, the wait starts at a minute and doubles up to the cap, counted from the last
   * failure.
   */
  lemma {:induction false} RetriesBackOff(s: State, c: Contact, times: seq<nat>)
    requires c !in s.backoff && times != []
    ensures var s' := FailedAt(s, c, times);
      var full := Doubled(|times| - 1);
      && s' == s.(backoff := s'.backoff) && c in s'.backoff
      && s'.backoff[c].delay == (if full < RetryCap(s.background) then full else RetryCap(s.background))
      && s'.backoff[c].next == times[|times| - 1] + s'.backoff[c].delay
  {
    var n := |times| - 1;
    if n > 0 {
      RetriesBackOff(s, c, times[..n]);
      DoubledGrows(n - 1);
    } else {
      assert FailedAt(s, c, times[..0]) == s;
    }
  }

  // The same over runs of the whole machine.

  /** When direct-only sends to `c` failed, by the results a step applies. */
  function FailuresIn(finished: seq<Finished>, c: Contact, now: nat): seq<nat> {
    if finished == [] then []
    else
      var f := finished[0];
      FailureIn(f, c, now) + FailuresIn(finished[1..], c, now)
  }

  function FailureIn(f: Finished, c: Contact, now: nat): seq<nat> {
    if f.recipient == Some(c) && f.delivery.Failed? && f.relayless then [now] else []
  }

  lemma Regrouped(a: seq<nat>, b: seq<nat>, c: seq<nat>)
    ensures a + b + c == a + (b + c)
  {
  }

  function TimeOf(step: Step): nat {
    if step.ApplyRound? || step.ApplyCall? || step.AbandonRest? then step.now else 0
  }

  function Failures(states: seq<System>, steps: seq<Step>, i: nat, c: Contact): seq<nat>
    requires |states| == |steps| + 1 && forall k :: 0 <= k < |states| ==> |states[k].results| <= |states[k].job|
    decreases |steps|
  {
    if |steps| <= i then []
    else
      var n := |steps| - 1;
      Failures(states[..n + 1], steps[..n], i, c) + FailuresIn(AppliedBy(states[n], steps[n]), c, TimeOf(steps[n]))
  }

  /** `c`'s device shows itself: it is heard from, or a send is taken by it. */
  ghost predicate Shows(s: System, step: Step, c: Contact)
    requires |s.results| <= |s.job|
  {
    || (step.HeardFromNow? && step.contact == c)
    || exists f :: f in AppliedBy(s, step) && f.recipient == Some(c) && f.delivery.Direct?
  }

  /** `c`'s clock stands where failures at these times leave it. */
  predicate ClockIs(s: State, c: Contact, times: seq<nat>) {
    if times == [] then c !in s.backoff
    else
      && c in s.backoff
      && s.backoff[c].delay == Capped(|times| - 1, s.background)
      && s.backoff[c].next == times[|times| - 1] + s.backoff[c].delay
  }

  function Capped(n: nat, background: bool): nat {
    if Doubled(n) < RetryCap(background) then Doubled(n) else RetryCap(background)
  }

  lemma NextWait(n: nat, background: bool)
    ensures Capped(0, background) == 60
    ensures Capped(n + 1, background)
         == if 2 * Capped(n, background) < RetryCap(background) then 2 * Capped(n, background) else RetryCap(background)
  {
    DoubledGrows(n);
  }

  lemma ResultKeepsClock(s: State, f: Finished, now: nat, c: Contact, times: seq<nat>)
    requires ClockIs(s, c, times) && c != s.me && !(f.recipient == Some(c) && f.delivery.Direct?)
    ensures var s' := ApplyOne(s, f, now);
      ClockIs(s', c, times + FailureIn(f, c, now))
  {
    ResultMovesClock(s, f, now);
    ResultKeepsRest(s, f, now);
    ClockMovesOn(s, ApplyOne(s, f, now), f, c, now, times);
  }

  lemma ClockMovesOn(s: State, s': State, f: Finished, c: Contact, now: nat, times: seq<nat>)
    requires ClockIs(s, c, times) && s'.background == s.background && !(f.recipient == Some(c) && f.delivery.Direct?)
    requires if f.recipient == Some(c) then ClockMoves(s, s', f, c, now) else ClockStays(s, s', c)
    ensures ClockIs(s', c, times + FailureIn(f, c, now))
  {
    assert times + [] == times;
    if times != [] {
      NextWait(|times| - 1, s.background);
    }
    NextWait(0, s.background);
  }

  lemma ResultKeepsRest(s: State, f: Finished, now: nat)
    ensures ApplyOne(s, f, now).me == s.me && ApplyOne(s, f, now).background == s.background
  {
    SettledTells(s, f, now);
    if f.done.Held? {
      HeldDoneTells(Rescued(Clocked(s, f, now), f), f.done.bytes, f.delivery, now);
    }
  }

  lemma {:induction false} ResultsKeepClock(s: State, finished: seq<Finished>, now: nat, c: Contact, times: seq<nat>)
    requires ClockIs(s, c, times) && c != s.me
    requires forall f :: f in finished ==> !(f.recipient == Some(c) && f.delivery.Direct?)
    ensures ClockIs(Apply(s, finished, now), c, times + FailuresIn(finished, c, now))
    ensures Apply(s, finished, now).me == s.me && Apply(s, finished, now).background == s.background
    decreases |finished|
  {
    if finished != [] {
      var f := finished[0];
      var more := FailureIn(f, c, now);
      var s' := ApplyOne(s, f, now);
      ResultKeepsClock(s, f, now, c, times);
      ResultKeepsRest(s, f, now);
      ResultsKeepClock(s', finished[1..], now, c, times + more);
      Regrouped(times, more, FailuresIn(finished[1..], c, now));
    } else {
      assert times + [] == times;
    }
  }

  lemma StepKeepsMe(s: System, step: Step)
    requires Enabled(s, step) && |s.results| <= |s.job|
    ensures Do(s, step).node.me == s.node.me
  {
    match step {
      case ApplyRound(now) => MeStays(s.node, Finishes(s.job, s.results), now);
      case ApplyCall(a, now) => ResultKeepsRest(s.node, Finish(a.out, a.delivery.value), now);
      case AbandonRest(now) =>
        MeStays(s.node.(outbox := []), Finishes(s.node.outbox, AllFailed(|s.node.outbox|)), now);
      case _ =>
    }
  }

  lemma {:induction false} MeStays(s: State, finished: seq<Finished>, now: nat)
    ensures Apply(s, finished, now).me == s.me && Apply(s, finished, now).background == s.background
    decreases |finished|
  {
    if finished != [] {
      ResultKeepsRest(s, finished[0], now);
      MeStays(ApplyOne(s, finished[0], now), finished[1..], now);
    }
  }

  lemma StepKeepsClock(s: System, step: Step, c: Contact, times: seq<nat>)
    requires Enabled(s, step) && |s.results| <= |s.job| && !Shows(s, step, c) && c != s.node.me
    requires ClockIs(s.node, c, times) && Do(s, step).node.background == s.node.background
    ensures ClockIs(Do(s, step).node, c, times + FailuresIn(AppliedBy(s, step), c, TimeOf(step)))
  {
    assert times + [] == times;
    match step {
      case ApplyRound(now) =>
        assert s.job[..|s.results|] == s.job;
        ResultsKeepClock(s.node, Finishes(s.job, s.results), now, c, times);
      case ApplyCall(a, now) =>
        var f := Finish(a.out, a.delivery.value);
        assert f in AppliedBy(s, step) && [f][1..] == [];
        ResultKeepsClock(s.node, f, now, c, times);
      case AbandonRest(now) =>
        ResultsKeepClock(s.node.(outbox := []), AppliedBy(s, step), now, c, times);
      case _ => QuietStepKeepsClock(s, step, c);
    }
  }

  lemma QuietStepKeepsClock(s: System, step: Step, c: Contact)
    requires Enabled(s, step) && |s.results| <= |s.job| && !(step.HeardFromNow? && step.contact == c)
    requires !step.ApplyRound? && !step.ApplyCall? && !step.AbandonRest?
    ensures ClockStays(s.node, Do(s, step).node, c)
  {
    match step {
      case HeardFromNow(from, now) => HeardTells(s.node, from, now);
      case FlushHeldNow(only, directFirst, now) => FlushTouches(s.node, only, directFirst, now);
      case _ =>
    }
  }

  /** From `i` on `c`'s device does not show itself, and the cap stays the same. */
  ghost predicate Silent(states: seq<System>, steps: seq<Step>, i: nat, c: Contact)
    requires IsRun(states, steps)
  {
    && (forall k :: i <= k < |steps| ==> !Shows(states[k], steps[k], c))
    && (forall k :: i <= k < |steps| ==> states[k + 1].node.background == states[k].node.background)
  }

  lemma SilentPrefix(states: seq<System>, steps: seq<Step>, i: nat, c: Contact)
    requires IsRun(states, steps) && i < |steps| && Silent(states, steps, i, c)
    requires IsRun(states[..|steps|], steps[..|steps| - 1])
    ensures Silent(states[..|steps|], steps[..|steps| - 1], i, c)
  {
    var n := |steps| - 1;
    var front, before := states[..n + 1], steps[..n];
    forall k | i <= k < n
      ensures !Shows(front[k], before[k], c) && front[k + 1].node.background == front[k].node.background
    {
      assert front[k] == states[k] && before[k] == steps[k] && front[k + 1] == states[k + 1];
    }
  }

  lemma LastStepMovesClock(states: seq<System>, steps: seq<Step>, c: Contact, times: seq<nat>)
    requires IsRun(states, steps) && steps != []
    requires var n := |steps| - 1;
      && !Shows(states[n], steps[n], c) && states[n + 1].node.background == states[n].node.background
      && ClockIs(states[n].node, c, times) && c != states[n].node.me
    ensures var n := |steps| - 1;
      && ClockIs(states[n + 1].node, c, times + FailuresIn(AppliedBy(states[n], steps[n]), c, TimeOf(steps[n])))
      && states[n + 1].node.me == states[n].node.me
  {
    var n := |steps| - 1;
    StepKeepsMe(states[n], steps[n]);
    StepKeepsClock(states[n], steps[n], c, times);
  }

  /**
   * In every run: from a state in which `c` is not held back, for as long as its device does not show itself, its clock
   * stands exactly where the direct-only failures applied since then leave it.
   */
  lemma {:induction false} BacksOffEveryRun(states: seq<System>, steps: seq<Step>, i: nat, c: Contact)
    requires IsRun(states, steps) && i <= |steps| && Silent(states, steps, i, c)
    requires c != states[i].node.me && c !in states[i].node.backoff
    ensures ClockIs(states[|steps|].node, c, Failures(states, steps, i, c))
    ensures states[|steps|].node.me == states[i].node.me
    decreases |steps|
  {
    if i < |steps| {
      var n := |steps| - 1;
      RunPrefix(states, steps);
      SilentPrefix(states, steps, i, c);
      BacksOffEveryRun(states[..n + 1], steps[..n], i, c);
      var times := Failures(states[..n + 1], steps[..n], i, c);
      LastStepMovesClock(states, steps, c, times);
      assert Failures(states, steps, i, c) == times + FailuresIn(AppliedBy(states[n], steps[n]), c, TimeOf(steps[n]));
    }
  }

  // ---------------------------------------------------------------- a control frame waits until it lands

  ghost predicate ControlWaits(s: System, b: Frame) {
    exists p :: p in s.node.pending && p.bytes == b
  }

  ghost predicate ControlLanded(s: System, b: Frame) {
    exists d :: d in s.delivered && d.done == Control(b)
  }

  lemma MarkedStillWaits(s: State, only: Option<Contact>, now: nat, p: PendingControl)
    requires p in s.pending
    ensures exists q :: q in FlushControl(s, only, now).pending && q.bytes == p.bytes
  {
    var i :| 0 <= i < |s.pending| && s.pending[i] == p;
    assert FlushControl(s, only, now).pending[i] in FlushControl(s, only, now).pending;
  }

  lemma ControlDoneKeepsOthers(s: State, b: Frame, delivered: bool, p: PendingControl)
    requires p in s.pending && (p.bytes == b ==> !delivered)
    ensures exists q :: q in ControlDone(s, b, delivered).pending && q.bytes == p.bytes
  {
    var s' := ControlDone(s, b, delivered);
    WithoutControlExact(s.pending, b);
    FindControlExact(s.pending, b);
    if delivered {
      assert p in s'.pending;
    } else {
      var i :| 0 <= i < |s.pending| && s.pending[i] == p;
      assert s'.pending[i] in s'.pending;
    }
  }

  lemma HeldDoneKeepsPending(s: State, b: Frame, d: Delivery, now: nat)
    ensures HeldDone(s, b, d, now).pending == s.pending
  {
  }

  lemma OtherDoneKeepsPending(s: State, done: Done, d: Delivery, now: nat)
    requires !done.Control?
    ensures ApplyDone(s, done, d, now).pending == s.pending
  {
    if done.Held? {
      HeldDoneKeepsPending(s, done.bytes, d, now);
    }
  }

  lemma ApplyOneKeepsControl(s: State, f: Finished, now: nat, p: PendingControl)
    requires p in s.pending
    requires f.done == Control(p.bytes) ==> f.delivery.Failed?
    ensures exists q :: q in ApplyOne(s, f, now).pending && q.bytes == p.bytes
  {
    var settled := Rescued(Clocked(s, f, now), f);
    assert settled.pending == s.pending;
    if f.done.Control? {
      ControlDoneKeepsOthers(settled, f.done.bytes, !f.delivery.Failed?, p);
    } else {
      OtherDoneKeepsPending(settled, f.done, f.delivery, now);
      assert p in ApplyOne(s, f, now).pending;
    }
  }

  lemma {:induction false} ApplyRoundKeepsControl(s: System, b: Frame, now: nat)
    requires ResultsRecorded(s) && |s.results| == |s.job| && (ControlWaits(s, b) || ControlLanded(s, b))
    ensures var s' := s.(node := Apply(s.node, Finishes(s.job, s.results), now), job := [], results := []);
      ControlWaits(s', b) || ControlLanded(s', b)
    decreases |s.job|
  {
    if s.job != [] {
      var f := Finish(s.job[0], s.results[0]);
      var s' := Popped(s).(node := ApplyOne(s.node, f, now));
      if !ControlLanded(s, b) {
        var p :| p in s.node.pending && p.bytes == b;
        ApplyOneKeepsControl(s.node, f, now, p);
        assert ControlWaits(s', b);
      }
      PoppedRecorded(s, s'.node);
      assert Finishes(s.job, s.results)[1..] == Finishes(s'.job, s'.results);
      ApplyRoundKeepsControl(s', b, now);
    }
  }

  lemma StepKeepsControl(s: System, b: Frame, step: Step)
    requires Coherent(s) && ResultsRecorded(s) && Enabled(s, step) && (ControlWaits(s, b) || ControlLanded(s, b))
    ensures ControlWaits(Do(s, step), b) || ControlLanded(Do(s, step), b)
  {
    var s' := Do(s, step);
    StepKeepsRecorded(s, step);
    if ControlLanded(s, b) {
      var d :| d in s.delivered && d.done == Control(b);
      assert d in s'.delivered;
    } else {
      WaitingKeepsControl(s, b, step);
    }
  }

  lemma QueueStepsKeepPending(s: System, step: Step, p: PendingControl)
    requires Enabled(s, step) && |s.results| <= |s.job| && p in s.node.pending
    requires !step.FlushControlNow? && !step.HeardFromNow? && !step.ApplyRound? && !step.ApplyCall?
    requires !step.AbandonRest?
    ensures p in Do(s, step).node.pending
  {
  }

  lemma WaitingKeepsControl(s: System, b: Frame, step: Step)
    requires Coherent(s) && ResultsRecorded(s) && Enabled(s, step) && ControlWaits(s, b)
    ensures ControlWaits(Do(s, step), b) || ControlLanded(Do(s, step), b)
  {
    var p :| p in s.node.pending && p.bytes == b;
    match step {
      case FlushControlNow(only, now) => MarkedStillWaits(s.node, only, now, p);
      case HeardFromNow(c, now) =>
        var flushed := FlushHeld(s.node.(backoff := s.node.backoff - {c}), Some(c), true, now);
        MarkedStillWaits(flushed, Some(c), now, p);
      case ApplyRound(now) => ApplyRoundKeepsControl(s, b, now);
      case ApplyCall(a, now) => ApplyOneKeepsControl(s.node, Finish(a.out, a.delivery.value), now, p);
      case AbandonRest(now) =>
        assert ControlWaits(Abandoned(s), b);
        ApplyRoundKeepsControl(Abandoned(s), b, now);
      case _ => QueueStepsKeepPending(s, step, p);
    }
  }

  /** A control frame stays queued, whatever happens to its chat, until a copy of it has landed. */
  lemma {:induction false} ControlNeverLost(states: seq<System>, steps: seq<Step>, i: nat, b: Frame)
    requires IsRun(states, steps) && Launched(states[0]) && i <= |steps|
    requires ControlWaits(states[i], b)
    ensures ControlWaits(states[|steps|], b) || ControlLanded(states[|steps|], b)
    decreases |steps|
  {
    if i < |steps| {
      var n := |steps| - 1;
      assert steps[..n] + [steps[n]] == steps;
      ControlNeverLost(states[..n + 1], steps[..n], i, b);
      CoherentEveryRun(states[..n + 1], steps[..n]);
      RecordedEveryRun(states[..n + 1], steps[..n]);
      StepKeepsControl(states[n], b, steps[n]);
    }
  }

  // ---------------------------------------------------------------- a message handed over directly

  /** A relay copy behind an unreceipted direct one is recorded so that recalling it can never succeed. */
  method RecallBehindDirect(net: RelayNet, primary: Option<RelayClient>, s: State, a: AwaitingReceipt,
                            copies: seq<QueuedReceipt>, now: nat)
    returns (recalled: bool)
    requires net.Valid() && a.contact in s.chats
    modifies net`stored, net`asked
    ensures !recalled
  {
    var receipts := UnconfirmedDone(s, a, Relay(copies), now).chats[a.contact].receipts[a.msg];
    assert receipts[|copies|] == HANDED_DIRECTLY;
    recalled := RecallReceipts(net, primary, receipts);
  }
}
