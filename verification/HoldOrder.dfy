/**
 * Held frames reach a contact without a relay route one at a time and in the order they were held: what that means of
 * the queue, of the traffic and of what the network took, and that every step of the delivery machine keeps it so.
 */
module HoldOrder {
  import opened Wrappers
  import opened Posting
  import opened Outbox
  import opened InFlight

  predicate RetryTo(out: Outbound, c: Contact) {
    out.done.Held? && out.send.recipient == Some(c)
  }

  /** `a` was held before `b`. */
  predicate Before(log: seq<Frame>, a: Frame, b: Frame) {
    Ticket(log, a) < Ticket(log, b)
  }

  /** One of the results in hand says `out` arrived. */
  ghost predicate Landed(out: Outbound, t: seq<Outbound>, results: seq<Delivery>) {
    exists i :: 0 <= i < |results| && i < |t| && t[i] == out && !results[i].Failed?
  }

  /** At most one of `c`'s entries is in flight, and it is the oldest. */
  ghost predicate OldestInFlight(c: Contact, log: seq<Frame>, held: seq<HeldSend>) {
    forall h, g :: h in held && g in held && h.contact == g.contact == c && h.inFlight && g != h ==>
      Before(log, h.bytes, g.bytes)
  }

  /** What was tried for `c` is older than what waits, the entry in flight aside. */
  ghost predicate TriedIsOlder(c: Contact, log: seq<Frame>, held: seq<HeldSend>, outs: seq<Outbound>) {
    forall h, out :: h in held && h.contact == c && out in outs && RetryTo(out, c) ==>
      Before(log, out.send.bytes, h.bytes) || (out.send.bytes == h.bytes && h.inFlight)
  }

  /** The unsent part of the traffic, from `ran` on, keeps hold order. */
  ghost predicate TrafficInOrder(c: Contact, log: seq<Frame>, t: seq<Outbound>, ran: nat) {
    forall i, j :: ran <= i < j < |t| && RetryTo(t[i], c) && RetryTo(t[j], c) ==>
      Before(log, t[i].send.bytes, t[j].send.bytes)
  }

  ghost predicate DeliveredFirst(c: Contact, log: seq<Frame>, delivered: seq<Outbound>, t: seq<Outbound>, ran: nat) {
    forall d, j :: d in delivered && RetryTo(d, c) && ran <= j < |t| && RetryTo(t[j], c) ==>
      Before(log, d.send.bytes, t[j].send.bytes)
  }

  /** Frames arrived in hold order. */
  ghost predicate DeliveredInOrder(c: Contact, log: seq<Frame>, delivered: seq<Outbound>) {
    forall i, j :: 0 <= i < j < |delivered| && RetryTo(delivered[i], c) && RetryTo(delivered[j], c) ==>
      Before(log, delivered[i].send.bytes, delivered[j].send.bytes)
  }

  /** A frame that arrived is still held only until its result is applied. */
  ghost predicate DeliveredLeaves(c: Contact, held: seq<HeldSend>, delivered: seq<Outbound>, t: seq<Outbound>,
                                  results: seq<Delivery>)
  {
    forall d, h :: d in delivered && RetryTo(d, c) && h in held && h.bytes == d.send.bytes ==> Landed(d, t, results)
  }

  ghost predicate Fifo(c: Contact, log: seq<Frame>, held: seq<HeldSend>, t: seq<Outbound>, results: seq<Delivery>,
                       delivered: seq<Outbound>)
  {
    && |results| <= |t|
    && (forall d :: d in delivered && RetryTo(d, c) ==> d.send.bytes in log)
    && OldestInFlight(c, log, held)
    && TriedIsOlder(c, log, held, t)
    && TriedIsOlder(c, log, held, delivered)
    && TrafficInOrder(c, log, t, |results|)
    && DeliveredFirst(c, log, delivered, t, |results|)
    && DeliveredInOrder(c, log, delivered)
    && DeliveredLeaves(c, held, delivered, t, results)
  }

  ghost predicate FifoOf(s: System, c: Contact) {
    Fifo(c, s.node.holdLog, s.node.held, Traffic(s), s.results, s.delivered)
  }

  // ---------------------------------------------------------------- one change at a time

  lemma FifoHold(c: Contact, log: seq<Frame>, held: seq<HeldSend>, t: seq<Outbound>, results: seq<Delivery>,
                 delivered: seq<Outbound>, h: HeldSend)
    requires Fifo(c, log, held, t, results, delivered) && Ordered(log, held) && h.bytes !in log && !h.inFlight
    requires forall out :: out in t && out.done.Held? ==> out.send.bytes in log
    ensures Fifo(c, log + [h.bytes], held + [h], t, results, delivered)
  {
    var log', held' := log + [h.bytes], held + [h];
    TicketGrows(log, h.bytes);
    assert forall g :: g in held' <==> g in held || g == h;
    assert OldestInFlight(c, log', held');
    assert TriedIsOlder(c, log', held', t);
    assert TriedIsOlder(c, log', held', delivered);
    assert TrafficInOrder(c, log', t, |results|) by {
      forall i | 0 <= i < |t| ensures t[i] in t {}
    }
    assert DeliveredFirst(c, log', delivered, t, |results|) by {
      forall i | 0 <= i < |t| ensures t[i] in t {}
    }
    assert DeliveredInOrder(c, log', delivered) by {
      forall i | 0 <= i < |delivered| ensures delivered[i] in delivered {}
    }
  }

  /** Traffic that retries nothing of `c` may join at the end. */
  lemma FifoAppend(c: Contact, log: seq<Frame>, held: seq<HeldSend>, t: seq<Outbound>, results: seq<Delivery>,
                   delivered: seq<Outbound>, outs: seq<Outbound>)
    requires Fifo(c, log, held, t, results, delivered)
    requires forall out :: out in outs ==> !RetryTo(out, c)
    ensures Fifo(c, log, held, t + outs, results, delivered)
  {
    var t' := t + outs;
    forall i | |t| <= i < |t'| ensures !RetryTo(t'[i], c) {
      assert t'[i] in outs;
    }
    LandedGrows(t, results, outs);
  }

  lemma LandedGrows(t: seq<Outbound>, results: seq<Delivery>, outs: seq<Outbound>)
    requires |results| <= |t|
    ensures forall d :: Landed(d, t, results) ==> Landed(d, t + outs, results)
  {
    forall d | Landed(d, t, results) ensures Landed(d, t + outs, results) {
      var i :| 0 <= i < |results| && i < |t| && t[i] == d && !results[i].Failed?;
      assert (t + outs)[i] == d;
    }
  }

  lemma FifoDrop(c: Contact, log: seq<Frame>, held: seq<HeldSend>, held': seq<HeldSend>, t: seq<Outbound>,
                 results: seq<Delivery>, delivered: seq<Outbound>)
    requires Fifo(c, log, held, t, results, delivered)
    requires forall h :: h in held' ==> h in held
    ensures Fifo(c, log, held', t, results, delivered)
  {
  }

  /** A flush: at most `c`'s oldest entry goes, and it goes behind everything of `c` before it. */
  lemma FifoLaunch(c: Contact, log: seq<Frame>, held: seq<HeldSend>, t: seq<Outbound>, results: seq<Delivery>,
                   delivered: seq<Outbound>, going: seq<nat>, held': seq<HeldSend>, outs: seq<Outbound>)
    requires Fifo(c, log, held, t, results, delivered) && Ordered(log, held) && Launches(held, going, held', outs)
    requires forall k :: 0 <= k < |going| && held[going[k]].contact == c ==> Oldest(held, going[k])
    ensures Fifo(c, log, held', t + outs, results, delivered)
  {
    var t' := t + outs;
    LaunchOldest(c, log, held, going, held', outs);
    LaunchTried(c, log, held, going, held', outs);
    LandedGrows(t, results, outs);
    forall h | h in held' && h.contact == c
      ensures exists g :: g in held && g.contact == c && g.bytes == h.bytes && (g == h || h.inFlight)
    {
      var i :| 0 <= i < |held'| && held'[i] == h;
      assert held[i] in held;
    }
    assert TriedIsOlder(c, log, held', t);
    assert TriedIsOlder(c, log, held', delivered);
    assert TriedIsOlder(c, log, held', t') by {
      assert forall out :: out in t' ==> out in t || out in outs;
    }
    LaunchBehind(c, log, held, t, delivered, going, held', outs);
    assert TrafficInOrder(c, log, t', |results|);
    assert DeliveredFirst(c, log, delivered, t', |results|);
    assert DeliveredLeaves(c, held', delivered, t', results);
  }

  lemma LaunchOldest(c: Contact, log: seq<Frame>, held: seq<HeldSend>, going: seq<nat>, held': seq<HeldSend>,
                     outs: seq<Outbound>)
    requires Ordered(log, held) && Launches(held, going, held', outs) && OldestInFlight(c, log, held)
    requires forall k :: 0 <= k < |going| && held[going[k]].contact == c ==> Oldest(held, going[k])
    ensures OldestInFlight(c, log, held')
  {
    forall h, g | h in held' && g in held' && h.contact == g.contact == c && h.inFlight && g != h
      ensures Before(log, h.bytes, g.bytes)
    {
      var i :| 0 <= i < |held'| && held'[i] == h;
      var j :| 0 <= j < |held'| && held'[j] == g;
      MarkedIsOldest(c, log, held, going, held', outs, i, j);
    }
  }

  lemma LaunchTried(c: Contact, log: seq<Frame>, held: seq<HeldSend>, going: seq<nat>, held': seq<HeldSend>,
                    outs: seq<Outbound>)
    requires Ordered(log, held) && Launches(held, going, held', outs)
    requires forall k :: 0 <= k < |going| && held[going[k]].contact == c ==> Oldest(held, going[k])
    ensures TriedIsOlder(c, log, held', outs)
  {
    forall h, out | h in held' && h.contact == c && out in outs && RetryTo(out, c)
      ensures Before(log, out.send.bytes, h.bytes) || (out.send.bytes == h.bytes && h.inFlight)
    {
      var j :| 0 <= j < |held'| && held'[j] == h;
      var k :| 0 <= k < |outs| && outs[k] == out;
      assert HeldFor(out, held[going[k]]) && held[j].contact == c;
      SentIsOldest(c, log, held, going, held', outs, k, j);
    }
  }

  lemma MarkedIsOldest(c: Contact, log: seq<Frame>, held: seq<HeldSend>, going: seq<nat>, held': seq<HeldSend>,
                       outs: seq<Outbound>, i: nat, j: nat)
    requires Ordered(log, held) && Launches(held, going, held', outs) && OldestInFlight(c, log, held)
    requires forall k :: 0 <= k < |going| && held[going[k]].contact == c ==> Oldest(held, going[k])
    requires i < |held'| && j < |held'| && i != j && held'[i].contact == held'[j].contact == c && held'[i].inFlight
    ensures Before(log, held'[i].bytes, held'[j].bytes)
  {
    assert held[i].contact == held[j].contact == c;
    assert held[i] in held && held[j] in held;
    if i in going {
      var k :| 0 <= k < |going| && going[k] == i;
      assert i < j;
    } else {
      OrderedApart(log, held, i);
    }
  }

  lemma SentIsOldest(c: Contact, log: seq<Frame>, held: seq<HeldSend>, going: seq<nat>, held': seq<HeldSend>,
                     outs: seq<Outbound>, k: nat, j: nat)
    requires Ordered(log, held) && Launches(held, going, held', outs)
    requires k < |outs| && j < |held| && held[going[k]].contact == held[j].contact && Oldest(held, going[k])
    ensures Before(log, outs[k].send.bytes, held[j].bytes) || (outs[k].send.bytes == held[j].bytes && held'[j].inFlight)
  {
    assert going[k] <= j;
  }

  lemma LaunchBehind(c: Contact, log: seq<Frame>, held: seq<HeldSend>, t: seq<Outbound>, delivered: seq<Outbound>,
                     going: seq<nat>, held': seq<HeldSend>, outs: seq<Outbound>)
    requires Ordered(log, held) && Launches(held, going, held', outs)
    requires TriedIsOlder(c, log, held, t) && TriedIsOlder(c, log, held, delivered)
    requires forall k :: 0 <= k < |going| && held[going[k]].contact == c ==> Oldest(held, going[k])
    ensures forall i, k :: 0 <= i < |t| && 0 <= k < |outs| && RetryTo(t[i], c) && RetryTo(outs[k], c) ==>
              Before(log, t[i].send.bytes, outs[k].send.bytes)
    ensures forall d, k :: d in delivered && 0 <= k < |outs| && RetryTo(d, c) && RetryTo(outs[k], c) ==>
              Before(log, d.send.bytes, outs[k].send.bytes)
    ensures forall k, l :: 0 <= k < l < |outs| ==> !(RetryTo(outs[k], c) && RetryTo(outs[l], c))
  {
    forall k | 0 <= k < |outs| ensures held[going[k]] in held {}
    forall i | 0 <= i < |t| ensures t[i] in t {}
    forall k, l | 0 <= k < l < |outs| && RetryTo(outs[k], c) ensures !RetryTo(outs[l], c) {
      assert going[k] < going[l];
    }
  }

  lemma OthersInOrder(outbox: seq<Outbound>, i: nat, j: nat) returns (i': nat, j': nat)
    requires i < j < |Others(outbox)|
    ensures i' < j' < |outbox| && outbox[i'] == Others(outbox)[i] && outbox[j'] == Others(outbox)[j]
  {
    var callers, others := SplitKeepsOrder(outbox);
    i', j' := others[i], others[j];
  }

  /** Where an entry of the thinned traffic stood before. */
  lemma StoodAt(job: seq<Outbound>, outbox: seq<Outbound>, j: nat) returns (i: nat)
    requires j < |job + Others(outbox)|
    ensures i < |job + outbox| && (job + outbox)[i] == (job + Others(outbox))[j]
    ensures if j < |job| then i == j else i >= |job|
  {
    if j < |job| {
      i := j;
    } else {
      CallerSplitIsStable(outbox);
      assert Others(outbox)[j - |job|] in outbox;
      var k :| 0 <= k < |outbox| && outbox[k] == Others(outbox)[j - |job|];
      i := |job| + k;
    }
  }

  lemma StoodInOrder(job: seq<Outbound>, outbox: seq<Outbound>, i: nat, j: nat) returns (i': nat, j': nat)
    requires i < j < |job + Others(outbox)|
    ensures i' < j' < |job + outbox| && (i < |job| ==> i' == i) && (i >= |job| ==> i' >= |job|)
    ensures (job + outbox)[i'] == (job + Others(outbox))[i] && (job + outbox)[j'] == (job + Others(outbox))[j]
  {
    if i >= |job| {
      var x, y := OthersInOrder(outbox, i - |job|, j - |job|);
      i', j' := |job| + x, |job| + y;
    } else {
      i' := i;
      j' := StoodAt(job, outbox, j);
    }
  }

  lemma ThinnedInOrder(c: Contact, log: seq<Frame>, job: seq<Outbound>, outbox: seq<Outbound>, ran: nat)
    requires TrafficInOrder(c, log, job + outbox, ran) && ran <= |job|
    ensures TrafficInOrder(c, log, job + Others(outbox), ran)
  {
    var t' := job + Others(outbox);
    forall i, j | ran <= i < j < |t'| && RetryTo(t'[i], c) && RetryTo(t'[j], c)
      ensures Before(log, t'[i].send.bytes, t'[j].send.bytes)
    {
      var i', j' := StoodInOrder(job, outbox, i, j);
    }
  }

  lemma ThinnedAfterDelivered(c: Contact, log: seq<Frame>, delivered: seq<Outbound>, job: seq<Outbound>,
                              outbox: seq<Outbound>,
                              ran: nat)
    requires DeliveredFirst(c, log, delivered, job + outbox, ran) && ran <= |job|
    ensures DeliveredFirst(c, log, delivered, job + Others(outbox), ran)
  {
    var t' := job + Others(outbox);
    forall d, j | d in delivered && RetryTo(d, c) && ran <= j < |t'| && RetryTo(t'[j], c)
      ensures Before(log, d.send.bytes, t'[j].send.bytes)
    {
      var j' := StoodAt(job, outbox, j);
    }
  }

  /** Taking the callers' sends off the outbox moves no retry past another. */
  lemma FifoTakeCallers(c: Contact, log: seq<Frame>, held: seq<HeldSend>, job: seq<Outbound>, outbox: seq<Outbound>,
                        results: seq<Delivery>, delivered: seq<Outbound>)
    requires Fifo(c, log, held, job + outbox, results, delivered) && |results| <= |job|
    ensures Fifo(c, log, held, job + Others(outbox), results, delivered)
  {
    var t, t' := job + outbox, job + Others(outbox);
    CallerSplitIsStable(outbox);
    assert forall out :: out in t' ==> out in t;
    ThinnedInOrder(c, log, job, outbox, |results|);
    ThinnedAfterDelivered(c, log, delivered, job, outbox, |results|);
    forall d | Landed(d, t, results) ensures Landed(d, t', results) {
      var i :| 0 <= i < |results| && i < |t| && t[i] == d && !results[i].Failed?;
      assert t'[i] == d;
    }
  }

  /** The next send of the batch runs: what arrived so far is older than what is still to run. */
  lemma FifoRun(c: Contact, log: seq<Frame>, held: seq<HeldSend>, t: seq<Outbound>, results: seq<Delivery>,
                delivered: seq<Outbound>, d: Delivery)
    requires Fifo(c, log, held, t, results, delivered) && |results| < |t|
    requires forall out :: out in t && out.done.Held? ==> out.send.bytes in log
    ensures Fifo(c, log, held, t, results + [d], Took(t[|results|], d, delivered))
  {
    var out := t[|results|];
    var results', delivered' := results + [d], Took(out, d, delivered);
    assert out in t;
    forall x | Landed(x, t, results) ensures Landed(x, t, results') {
      var i :| 0 <= i < |results| && i < |t| && t[i] == x && !results[i].Failed?;
      assert results'[i] == results[i];
    }
    assert !d.Failed? ==> Landed(out, t, results') by {
      assert results'[|results|] == d;
    }
    assert forall x :: x in delivered' ==> x in delivered || x == out;
    assert TriedIsOlder(c, log, held, delivered');
    assert DeliveredFirst(c, log, delivered', t, |results'|);
    assert DeliveredInOrder(c, log, delivered') by {
      forall i | 0 <= i < |delivered| ensures delivered[i] in delivered {}
    }
    assert DeliveredLeaves(c, held, delivered', t, results');
  }

  /** A result other than a retry's comes off the front. */
  lemma FifoPopOther(c: Contact, log: seq<Frame>, held: seq<HeldSend>, t: seq<Outbound>, results: seq<Delivery>,
                     delivered: seq<Outbound>)
    requires Fifo(c, log, held, t, results, delivered) && results != []
    requires !RetryTo(t[0], c) || forall h :: h in held ==> h.bytes != t[0].send.bytes
    ensures Fifo(c, log, held, t[1..], results[1..], delivered)
  {
    forall d, h | d in delivered && RetryTo(d, c) && h in held && h.bytes == d.send.bytes
      ensures Landed(d, t[1..], results[1..])
    {
      var i :| 0 <= i < |results| && i < |t| && t[i] == d && !results[i].Failed?;
      assert t[1..][i - 1] == d && results[1..][i - 1] == results[i];
    }
  }

  /** A retry to `c` that failed comes off the front, and its entry is idle again. */
  lemma FifoPopFailed(c: Contact, log: seq<Frame>, held: seq<HeldSend>, t: seq<Outbound>, results: seq<Delivery>,
                      delivered: seq<Outbound>, i: nat)
    requires Fifo(c, log, held, t, results, delivered) && results != [] && results[0].Failed?
    requires Ordered(log, held) && Unique(t) && HeldFlight(held, t)
    requires i < |held| && t[0].done.Held? && held[i].bytes == t[0].send.bytes
    ensures Fifo(c, log, held[i := held[i].(inFlight := false)], t[1..], results[1..], delivered)
  {
    var idle := held[i].(inFlight := false);
    var held' := held[i := idle];
    OrderedApart(log, held, i);
    assert held[i] in held && t[0] in t;
    forall h | h in held' ensures (h in held && h.bytes != t[0].send.bytes) || h == idle {
      var j :| 0 <= j < |held'| && held'[j] == h;
      assert held[j] in held;
    }
    FailedNotDelivered(c, held, t, results, delivered, held[i]);
    FifoUnmark(c, log, held, held', t, results, delivered, held[i]);
  }

  lemma FifoUnmark(c: Contact, log: seq<Frame>, held: seq<HeldSend>, held': seq<HeldSend>, t: seq<Outbound>,
                   results: seq<Delivery>, delivered: seq<Outbound>, was: HeldSend)
    requires Fifo(c, log, held, t, results, delivered) && results != [] && Unique(t)
    requires was in held && t[0].done.Held? && was.bytes == t[0].send.bytes
    requires forall h :: h in held' ==> (h in held && h.bytes != was.bytes) || h == was.(inFlight := false)
    requires forall d :: d in delivered && RetryTo(d, c) ==> d.send.bytes != was.bytes
    ensures Fifo(c, log, held', t[1..], results[1..], delivered)
  {
    var t', results' := t[1..], results[1..];
    assert t == [t[0]] + t';
    UniqueTail(t);
    assert OldestInFlight(c, log, held');
    assert TriedIsOlder(c, log, held', t');
    assert TriedIsOlder(c, log, held', delivered);
    forall d, h | d in delivered && RetryTo(d, c) && h in held' && h.bytes == d.send.bytes
      ensures Landed(d, t', results')
    {
      var k :| 0 <= k < |results| && k < |t| && t[k] == d && !results[k].Failed?;
      assert t'[k - 1] == d && results'[k - 1] == results[k];
    }
  }

  lemma FailedNotDelivered(c: Contact, held: seq<HeldSend>, t: seq<Outbound>, results: seq<Delivery>,
                           delivered: seq<Outbound>,
                           h: HeldSend)
    requires results != [] && results[0].Failed? && |results| <= |t| && Unique(t) && t[0].done.Held?
    requires DeliveredLeaves(c, held, delivered, t, results) && h in held && h.bytes == t[0].send.bytes
    ensures forall d :: d in delivered && RetryTo(d, c) ==> d.send.bytes != h.bytes
  {
    forall k | 0 <= k < |results| && RetryTo(t[k], c) && !results[k].Failed? ensures t[k].send.bytes != h.bytes {
      assert Claims(t[0]) && Claims(t[k]);
    }
  }

  /** A retry to `c` that arrived comes off the front, and its entry leaves the queue. */
  lemma FifoPopArrived(c: Contact, log: seq<Frame>, held: seq<HeldSend>, t: seq<Outbound>, results: seq<Delivery>,
                       delivered: seq<Outbound>, held': seq<HeldSend>)
    requires Fifo(c, log, held, t, results, delivered) && results != []
    requires forall h :: h in held' ==> h in held && h.bytes != t[0].send.bytes
    ensures Fifo(c, log, held', t[1..], results[1..], delivered)
  {
    FifoDrop(c, log, held, held', t, results, delivered);
    FifoPopOther(c, log, held', t, results, delivered);
  }

  // ---------------------------------------------------------------- every step

  predicate SameRoutes(a: State, b: State, c: Contact) {
    && HasRoute(a, c) == HasRoute(b, c)
    && OpenChat(a, c) == OpenChat(b, c)
    && Outdated(a, c) == Outdated(b, c)
  }

  lemma RecordKeepsRoutes(s: State, at: Contact, msg: MsgId, copies: seq<QueuedReceipt>, c: Contact)
    ensures SameRoutes(s, Record(s, at, msg, copies), c)
  {
  }

  lemma ApplyOneKeepsRoutes(s: State, f: Finished, now: nat, c: Contact)
    ensures SameRoutes(s, ApplyOne(s, f, now), c)
  {
    var clocked := Clocked(s, f, now);
    assert SameRoutes(s, clocked, c);
    assert SameRoutes(s, Rescued(clocked, f), c);
    ApplyDoneKeepsRoutes(Rescued(clocked, f), f.done, f.delivery, now, c);
  }

  lemma ApplyDoneKeepsRoutes(s: State, done: Done, d: Delivery, now: nat, c: Contact)
    ensures SameRoutes(s, ApplyDone(s, done, d, now), c)
  {
    match done {
      case Caller(record) =>
        if record.Some? && d.Relay? {
          RecordKeepsRoutes(s, record.value.0, record.value.1, d.copies, c);
        }
      case Held(bytes) => HeldDoneKeepsRoutes(s, bytes, d, now, c);
      case Unconfirmed(a) =>
        if d.Relay? {
          RecordKeepsRoutes(s, a.contact, a.msg, d.copies + [HANDED_DIRECTLY], c);
        }
      case Nothing =>
      case Announced(_, _) =>
      case Control(_) =>
      case Cover =>
    }
  }

  lemma HeldDoneKeepsRoutes(s: State, bytes: Frame, d: Delivery, now: nat, c: Contact)
    ensures SameRoutes(s, HeldDone(s, bytes, d, now), c)
  {
    FindHeldExact(s.held, bytes);
    var i := FindHeld(s.held, bytes);
    if i.Some? && d.Relay? && s.held[i.value].msg.Some? {
      var gone := s.(held := s.held[..i.value] + s.held[i.value + 1..]);
      RecordKeepsRoutes(gone, s.held[i.value].contact, s.held[i.value].msg.value, d.copies, c);
    }
  }

  /** Of a contact with no route, a flush picks at most the oldest entry. */
  lemma GoingIsOldest(p: State, c: Contact, only: Option<Contact>, now: nat)
    requires !HasRoute(p, c)
    ensures var going := Going(p, only, now, |p.held|);
      forall k :: 0 <= k < |going| ==>
        going[k] < |p.held| && (p.held[going[k]].contact == c ==> Oldest(p.held, going[k]))
  {
    var going := Going(p, only, now, |p.held|);
    GoingExact(p, only, now, |p.held|);
    forall k | 0 <= k < |going| && p.held[going[k]].contact == c ensures Oldest(p.held, going[k]) {
      assert going[k] in going;
    }
  }

  lemma LaunchStepKeepsFifo(s: System, c: Contact, going: seq<nat>, held': seq<HeldSend>, outs: seq<Outbound>)
    requires Coherent(s) && FifoOf(s, c) && Launches(s.node.held, going, held', outs)
    requires forall k :: 0 <= k < |going| && s.node.held[going[k]].contact == c ==> Oldest(s.node.held, going[k])
    ensures FifoOf(s.(node := s.node.(held := held', outbox := s.node.outbox + outs)), c)
  {
    FifoLaunch(c, s.node.holdLog, s.node.held, Traffic(s), s.results, s.delivered, going, held', outs);
    assert Traffic(s.(node := s.node.(held := held', outbox := s.node.outbox + outs))) == Traffic(s) + outs;
  }

  lemma PruneKeepsFifo(s: System, c: Contact)
    requires FifoOf(s, c)
    ensures FifoOf(s.(node := Prune(s.node)), c)
  {
    KeepOpenExact(s.node.held, s.node.chats);
    assert Traffic(s.(node := Prune(s.node))) == Traffic(s);
    FifoDrop(c, s.node.holdLog, s.node.held, Prune(s.node).held, Traffic(s), s.results, s.delivered);
  }

  lemma FlushKeepsFifo(s: System, c: Contact, only: Option<Contact>, directFirst: bool, now: nat)
    requires Coherent(s) && FifoOf(s, c) && !HasRoute(s.node, c)
    ensures FifoOf(s.(node := FlushHeld(s.node, only, directFirst, now)), c)
  {
    var p := Prune(s.node);
    PruneKeepsCoherent(s);
    PruneKeepsFifo(s, c);
    FlushLaunches(p, only, directFirst, now);
    assert HasRoute(p, c) == HasRoute(s.node, c);
    GoingIsOldest(p, c, only, now);
    var going := Going(p, only, now, |p.held|);
    LaunchStepKeepsFifo(s.(node := p), c, going, Marked(p.held, going), HeldOutbounds(p, going, directFirst));
  }

  lemma FlushControlKeepsFifo(s: System, c: Contact, only: Option<Contact>, now: nat)
    requires Coherent(s) && FifoOf(s, c)
    ensures FifoOf(s.(node := FlushControl(s.node, only, now)), c)
  {
    var n := |s.node.pending|;
    var outs := ControlOutbounds(s.node, only, now, n);
    FlushControlLaunches(s.node, only, now);
    ControlLaunchCarries(s.node.pending, DueControls(s.node, only, now, n), MarkDue(s.node, only, now), outs);
    AppendStepKeepsFifo(s, c, FlushControl(s.node, only, now), outs);
  }

  lemma AppendStepKeepsFifo(s: System, c: Contact, node: State, outs: seq<Outbound>)
    requires FifoOf(s, c) && forall out :: out in outs ==> !out.done.Held?
    requires node.held == s.node.held && node.holdLog == s.node.holdLog && node.outbox == s.node.outbox + outs
    ensures FifoOf(s.(node := node), c)
  {
    FifoAppend(c, s.node.holdLog, s.node.held, Traffic(s), s.results, s.delivered, outs);
    assert Traffic(s.(node := node)) == Traffic(s) + outs;
  }

  lemma HoldKeepsFifo(s: System, c: Contact, to: Contact, msg: Option<MsgId>, b: Frame)
    requires Coherent(s) && FifoOf(s, c) && Free(s, b)
    ensures FifoOf(s.(node := Hold(s.node, to, msg, b)), c)
  {
    FifoHold(c, s.node.holdLog, s.node.held, Traffic(s), s.results, s.delivered, HeldSend(to, msg, b, false));
    assert Traffic(s.(node := Hold(s.node, to, msg, b))) == Traffic(s);
  }

  lemma SameQueuesKeepFifo(s: System, node: State, c: Contact)
    requires FifoOf(s, c) && SameQueues(s.node, node)
    ensures FifoOf(s.(node := node), c)
  {
    assert Traffic(s.(node := node)) == Traffic(s);
  }

  lemma ApplyHeldKeepsFifo(s: System, c: Contact, now: nat)
    requires Coherent(s) && FifoOf(s, c) && !HasRoute(s.node, c)
    requires s.job != [] && s.results != [] && s.job[0].done.Held?
    ensures FifoOf(Popped(s).(node := HeldDone(s.node, s.job[0].done.bytes, s.results[0], now)), c)
  {
    var b, d, t, log, held := s.job[0].send.bytes, s.results[0], Traffic(s), s.node.holdLog, s.node.held;
    PoppedTraffic(s);
    assert s.job[0] in t;
    FindHeldExact(held, b);
    var i := FindHeld(held, b);
    if i.None? {
      FifoPopOther(c, log, held, t, s.results, s.delivered);
    } else if d.Failed? {
      FifoPopFailed(c, log, held, t, s.results, s.delivered, i.value);
      assert Traffic(Popped(s).(node := HeldDone(s.node, b, d, now))) == t[1..];
    } else {
      var held' := held[..i.value] + held[i.value + 1..];
      OrderedWithout(log, held, i.value);
      FifoPopArrived(c, log, held, t, s.results, s.delivered, held');
      var gone := Popped(s).(node := s.node.(held := held'));
      assert Traffic(gone) == t[1..];
      PopHeldArrivedKeepsCoherent(s, i.value);
      HeldArrivalKeepsFifo(gone, c, s.node, i.value, d, now);
    }
  }

  lemma HeldArrivalKeepsFifo(gone: System, c: Contact, node: State, i: nat, d: Delivery, now: nat)
    requires i < |node.held| && gone.node == node.(held := node.held[..i] + node.held[i + 1..])
    requires Coherent(gone) && FifoOf(gone, c) && !HasRoute(node, c) && !d.Failed?
    ensures FifoOf(gone.(node := HeldArrived(node, i, d, now)), c)
  {
    var h := node.held[i];
    if d.Direct? {
      var waiting := if h.msg.None? then gone.node
                     else gone.node.(awaiting := gone.node.awaiting + [AwaitingReceipt(h.contact, h.msg.value, now)]);
      SameQueuesKeepCoherent(gone, waiting);
      SameQueuesKeepFifo(gone, waiting, c);
      FlushKeepsFifo(gone.(node := waiting), c, Some(h.contact), true, now);
    } else if h.msg.Some? {
      SameQueuesKeepFifo(gone, Record(gone.node, h.contact, h.msg.value, d.copies), c);
    }
  }

  lemma ApplyOneOffKeepsFifo(s: System, c: Contact, f: Finished, now: nat)
    requires Coherent(s) && FifoOf(s, c) && f.done.OneOff() && Free(s, f.bytes)
    ensures FifoOf(s.(node := ApplyDone(Rescued(s.node, f), f.done, f.delivery, now)), c)
  {
    var rescued := s.(node := Rescued(s.node, f));
    if FallsBack(s.node, f) {
      HoldKeepsFifo(s, c, f.recipient.value, None, f.bytes);
    }
    SameQueuesKeepFifo(rescued, ApplyDone(rescued.node, f.done, f.delivery, now), c);
  }

  lemma PopKeepsFifo(s: System, c: Contact)
    requires FifoOf(s, c) && s.job != [] && s.results != [] && !s.job[0].done.Held?
    ensures FifoOf(Popped(s), c)
  {
    PoppedTraffic(s);
    FifoPopOther(c, s.node.holdLog, s.node.held, Traffic(s), s.results, s.delivered);
  }

  lemma ApplySettledKeepsFifo(s: System, c: Contact, f: Finished, now: nat)
    requires Coherent(s) && FifoOf(s, c) && !HasRoute(s.node, c)
    requires s.job != [] && s.results != [] && f == Finish(s.job[0], s.results[0])
    ensures FifoOf(Popped(s).(node := ApplyDone(Rescued(s.node, f), f.done, f.delivery, now)), c)
  {
    if f.done.Held? {
      ApplyHeldKeepsFifo(s, c, now);
    } else {
      PopKeepsFifo(s, c);
      if f.done.OneOff() {
        PopOtherKeepsCoherent(s);
        ApplyOneOffKeepsFifo(Popped(s), c, f, now);
      } else if f.done.Control? {
        var done := Popped(s).(node := ControlDone(s.node, f.done.bytes, !f.delivery.Failed?));
        assert Traffic(done) == Traffic(Popped(s));
      } else {
        SameQueuesKeepFifo(Popped(s), ApplyDone(s.node, f.done, f.delivery, now), c);
      }
    }
  }

  lemma ApplyHeadKeepsFifo(s: System, c: Contact, now: nat)
    requires Coherent(s) && FifoOf(s, c) && !HasRoute(s.node, c) && s.job != [] && s.results != []
    ensures FifoOf(Popped(s).(node := ApplyOne(s.node, Finish(s.job[0], s.results[0]), now)), c)
  {
    var f := Finish(s.job[0], s.results[0]);
    var clocked := s.(node := Clocked(s.node, f, now));
    SameQueuesKeepCoherent(s, clocked.node);
    SameQueuesKeepFifo(s, clocked.node, c);
    ApplySettledKeepsFifo(clocked, c, f, now);
    assert Popped(clocked).(node := ApplyDone(Rescued(clocked.node, f), f.done, f.delivery, now))
        == Popped(s).(node := ApplyOne(s.node, f, now));
  }

  lemma {:induction false} ApplyRoundKeepsFifo(s: System, c: Contact, now: nat)
    requires Coherent(s) && FifoOf(s, c) && !HasRoute(s.node, c) && |s.results| == |s.job|
    ensures FifoOf(s.(node := Apply(s.node, Finishes(s.job, s.results), now), job := [], results := []), c)
    decreases |s.job|
  {
    if s.job != [] {
      ApplyHeadKeepsFifo(s, c, now);
      ApplyHeadKeepsCoherent(s, now);
      ApplyOneKeepsRoutes(s.node, Finish(s.job[0], s.results[0]), now, c);
      var s' := Popped(s).(node := ApplyOne(s.node, Finish(s.job[0], s.results[0]), now));
      assert Finishes(s.job, s.results)[1..] == Finishes(s'.job, s'.results);
      ApplyRoundKeepsFifo(s', c, now);
    }
  }

  lemma QueueKeepsFifo(s: System, c: Contact, out: Outbound)
    requires FifoOf(s, c) && !out.done.Held?
    ensures FifoOf(s.(node := s.node.(outbox := s.node.outbox + [out])), c)
  {
    FifoAppend(c, s.node.holdLog, s.node.held, Traffic(s), s.results, s.delivered, [out]);
    assert Traffic(s.(node := s.node.(outbox := s.node.outbox + [out]))) == Traffic(s) + [out];
  }

  lemma NewFrameKeepsFifo(s: System, c: Contact, step: Step)
    requires Coherent(s) && FifoOf(s, c) && Enabled(s, step)
    requires step.HoldNew? || step.DeliverNew? || step.ControlNew? || step.OtherNew?
    ensures FifoOf(Do(s, step), c)
  {
    match step {
      case HoldNew(to, msg, b) =>
        SealedFreshIsFree(s, b);
        HoldKeepsFifo(s, c, to, msg, b);
        assert Traffic(Do(s, step)) == Traffic(s.(node := Do(s, step).node));
      case DeliverNew(address, to, b, fresh_, done) =>
        SealedFreshIsFree(s, b);
        if Do(s, step).node == Hold(s.node, to, None, b) {
          HoldKeepsFifo(s, c, to, None, b);
        } else if Do(s, step).node != s.node {
          QueueKeepsFifo(s, c, Outbound(DetachTo(s.node, to, address, b, fresh_), DirectThenRelay, done));
        }
        assert Traffic(Do(s, step)) == Traffic(s.(node := Do(s, step).node));
      case ControlNew(p, route) =>
        QueueKeepsFifo(s, c, Outbound(DetachPending(s.node, p.(inFlight := true)), route, Control(p.bytes)));
        var out := Outbound(DetachPending(s.node, p.(inFlight := true)), route, Control(p.bytes));
        assert Traffic(Do(s, step)) == Traffic(s) + [out];
      case OtherNew(send, route, done) =>
        QueueKeepsFifo(s, c, Outbound(send, route, done));
    }
  }

  lemma TookElsewhere(c: Contact, s: System, out: Outbound, d: Delivery)
    requires FifoOf(s, c) && !out.done.Held?
    ensures Fifo(c, s.node.holdLog, s.node.held, Traffic(s), s.results, Took(out, d, s.delivered))
  {
    var delivered' := Took(out, d, s.delivered);
    assert forall x :: x in delivered' && RetryTo(x, c) ==> x in s.delivered;
  }

  lemma CallStepKeepsFifo(s: System, c: Contact, step: Step)
    requires Coherent(s) && FifoOf(s, c) && Enabled(s, step) && (step.RunCall? || step.ApplyCall?)
    ensures FifoOf(Do(s, step), c)
  {
    if step.RunCall? {
      TookElsewhere(c, s, step.call.out, step.delivery);
      assert Traffic(Do(s, step)) == Traffic(s);
    } else {
      var rest := s.(calls := s.calls - {step.call});
      assert Traffic(rest) == Traffic(s);
      var f := Finish(step.call.out, step.call.delivery.value);
      var clocked := rest.(node := Clocked(s.node, f, step.now));
      SameQueuesKeepCoherent(rest, clocked.node);
      SameQueuesKeepFifo(rest, clocked.node, c);
      assert Traffic(clocked) == Traffic(s);
      assert Free(clocked, f.bytes);
      ApplyOneOffKeepsFifo(clocked, c, f, step.now);
    }
  }

  lemma HeardKeepsFifo(s: System, c: Contact, from: Contact, now: nat)
    requires Coherent(s) && FifoOf(s, c) && !HasRoute(s.node, c)
    ensures FifoOf(s.(node := Heard(s.node, from, now)), c)
  {
    var reset := s.node.(backoff := s.node.backoff - {from});
    SameQueuesKeepCoherent(s, reset);
    SameQueuesKeepFifo(s, reset, c);
    FlushKeepsCoherent(s.(node := reset), Some(from), true, now);
    FlushKeepsFifo(s.(node := reset), c, Some(from), true, now);
    FlushControlKeepsFifo(s.(node := FlushHeld(reset, Some(from), true, now)), c, Some(from), now);
  }

  lemma StepKeepsFifo(s: System, c: Contact, step: Step)
    requires Coherent(s) && FifoOf(s, c) && Enabled(s, step) && !HasRoute(s.node, c)
    ensures FifoOf(Do(s, step), c)
  {
    match step {
      case HoldNew(_, _, _) => NewFrameKeepsFifo(s, c, step);
      case DeliverNew(_, _, _, _, _) => NewFrameKeepsFifo(s, c, step);
      case ControlNew(_, _) => NewFrameKeepsFifo(s, c, step);
      case OtherNew(_, _, _) => NewFrameKeepsFifo(s, c, step);
      case FlushHeldNow(only, directFirst, now) => FlushKeepsFifo(s, c, only, directFirst, now);
      case FlushControlNow(only, now) => FlushControlKeepsFifo(s, c, only, now);
      case HeardFromNow(from, now) => HeardKeepsFifo(s, c, from, now);
      case TakeAll => assert Traffic(Do(s, step)) == Traffic(s);
      case TakeCallers =>
        FifoTakeCallers(c, s.node.holdLog, s.node.held, s.job, s.node.outbox, s.results, s.delivered);
      case RunNext(d) =>
        assert Traffic(Do(s, step)) == Traffic(s) && Traffic(s)[|s.results|] == s.job[|s.results|];
        FifoRun(c, s.node.holdLog, s.node.held, Traffic(s), s.results, s.delivered, d);
      case RunCall(_, _) => CallStepKeepsFifo(s, c, step);
      case ApplyRound(now) => ApplyRoundKeepsFifo(s, c, now);
      case ApplyCall(_, _) => CallStepKeepsFifo(s, c, step);
      case AbandonRest(now) =>
        assert Traffic(Abandoned(s)) == Traffic(s);
        AbandonedKeepsFifo(s, c);
        ApplyRoundKeepsFifo(Abandoned(s), c, now);
      case Elsewhere(_, _, _) => SameQueuesKeepFifo(s, Do(s, step).node, c);
    }
  }

  lemma AbandonedKeepsFifo(s: System, c: Contact)
    requires Coherent(s) && FifoOf(s, c) && s.job == []
    ensures FifoOf(Abandoned(s), c) && Coherent(Abandoned(s))
  {
    assert Traffic(Abandoned(s)) == Traffic(s);
    assert forall d :: !Landed(d, Traffic(s), s.results);
  }
}
