/** One drain round over every mailbox fragment on every relay, off the lock. */
module Drain {
  import opened Wrappers
  import opened Mailbox

  const DEAD_AFTER: nat := 2

  /** `addr` is `None` for the primary relay; `epoch` is the fragment's day. */
  datatype DrainJob = DrainJob(addr: Option<string>, client: string, epoch: Option<nat>, handles: seq<string>)

  datatype Plan = Plan(jobs: seq<DrainJob>, settles: Option<nat>)

  datatype Store = Store(modern: bool, boxes: Boxes)

  type Stores = map<string, Store>

  /** `up(i)(k)` is whether request `k` of job `i` is answered. */
  type Line = nat -> nat -> bool

  datatype Outcome = Answered | Unanswered | Skipped

  datatype Harvest = Harvest(blobs: seq<Blob>, reachability: seq<(string, bool)>, settled: Option<nat>)

  datatype Summary = Summary(ok: nat, failed: nat, skipped: nat)

  function Box(stores: Stores, client: string, handle: string): seq<Blob> {
    if client in stores then Queue(stores[client].boxes, handle) else []
  }

  // ---------------------------------------------------------------- the round, job by job

  datatype Reply = Reply(ok: bool, log: seq<Letter>, stores: Stores)

  /** One `take_many` on the relay behind `client`; a relay that does not exist answers nothing. */
  function TakeFrom(stores: Stores, client: string, handles: seq<string>, up: nat -> bool): Reply {
    if client !in stores then Reply(handles == [], [], stores)
    else
      var t := Take(client, stores[client].modern, stores[client].boxes, handles, up);
      Reply(t.ok, t.log, stores[client := stores[client].(boxes := t.boxes)])
  }

  /** How many of the jobs on `addr` came out as `o`. */
  function Count(jobs: seq<DrainJob>, outcomes: seq<Outcome>, addr: Option<string>, o: Outcome): nat
    requires |jobs| == |outcomes|
  {
    if jobs == [] then 0
    else
      var n := |jobs| - 1;
      Count(jobs[..n], outcomes[..n], addr, o) + if jobs[n].addr == addr && outcomes[n] == o then 1 else 0
  }

  predicate Dead(jobs: seq<DrainJob>, outcomes: seq<Outcome>, addr: Option<string>)
    requires |jobs| == |outcomes|
  {
    Count(jobs, outcomes, addr, Answered) == 0 && Count(jobs, outcomes, addr, Unanswered) >= DEAD_AFTER
  }

  datatype Round = Round(stores: Stores, log: seq<Letter>, outcomes: seq<Outcome>)

  function RunJob(r: Round, job: DrainJob, dead: bool, up: nat -> bool): Round {
    if dead then r.(outcomes := r.outcomes + [Skipped])
    else
      var t := TakeFrom(r.stores, job.client, job.handles, up);
      Round(t.stores, r.log + t.log, r.outcomes + [if t.ok then Answered else Unanswered])
  }

  function Run(jobs: seq<DrainJob>, stores: Stores, up: Line): (r: Round)
    ensures |r.outcomes| == |jobs|
  {
    if jobs == [] then Round(stores, [], [])
    else
      var n := |jobs| - 1;
      var r := Run(jobs[..n], stores, up);
      RunJob(r, jobs[n], Dead(jobs[..n], r.outcomes, jobs[n].addr), up(n))
  }

  // ---------------------------------------------------------------- conservation

  /** Each mailbox was what was harvested from it, in order, and then what is left in it. */
  ghost predicate Conserved(before: Stores, log: seq<Letter>, after: Stores) {
    forall client, handle :: Box(before, client, handle) == Of(log, client, handle) + Box(after, client, handle)
  }

  lemma {:induction false} OfOthers(log: seq<Letter>, client: string, c: string, h: string)
    requires c != client && forall l :: l in log ==> l.client == client
    ensures Of(log, c, h) == []
  {
    if log != [] {
      OfOthers(log[..|log| - 1], client, c, h);
    }
  }

  lemma TakeFromConserves(stores: Stores, client: string, handles: seq<string>, up: nat -> bool)
    ensures var t := TakeFrom(stores, client, handles, up);
      && Conserved(stores, t.log, t.stores)
      && t.stores.Keys == stores.Keys
      && (forall c :: c in stores ==> t.stores[c].modern == stores[c].modern)
      && (forall c, h :: c != client || h !in handles ==> Box(t.stores, c, h) == Box(stores, c, h))
      && (!t.ok ==> t.log == [] && t.stores == stores)
      && (forall l :: l in t.log ==> l.client == client)
  {
    if client in stores {
      var t := TakeFrom(stores, client, handles, up);
      TakeConserves(client, stores[client].modern, stores[client].boxes, handles, up);
      forall c, h ensures Box(stores, c, h) == Of(t.log, c, h) + Box(t.stores, c, h) {
        if c != client {
          OfOthers(t.log, client, c, h);
        }
      }
    }
  }

  lemma PartsChain(x: seq<Blob>, p: seq<Blob>, y: seq<Blob>, q: seq<Blob>, z: seq<Blob>)
    requires x == p + y && y == q + z
    ensures x == (p + q) + z
  {
  }

  lemma ConservedChains(a: Stores, l1: seq<Letter>, b: Stores, l2: seq<Letter>, c: Stores)
    requires Conserved(a, l1, b) && Conserved(b, l2, c)
    ensures Conserved(a, l1 + l2, c)
  {
    forall client, handle ensures Box(a, client, handle) == Of(l1 + l2, client, handle) + Box(c, client, handle) {
      OfSplits(l1, l2, client, handle);
      PartsChain(Box(a, client, handle), Of(l1, client, handle), Box(b, client, handle), Of(l2, client, handle),
                 Box(c, client, handle));
    }
  }

  /** Nothing a round touches is lost or made up: every blob is harvested once, in mailbox order, or still there. */
  lemma {:induction false} RoundConserves(jobs: seq<DrainJob>, stores: Stores, up: Line)
    ensures var r := Run(jobs, stores, up);
      && Conserved(stores, r.log, r.stores)
      && r.stores.Keys == stores.Keys
      && (forall c :: c in stores ==> r.stores[c].modern == stores[c].modern)
  {
    if jobs != [] {
      var n := |jobs| - 1;
      var r := Run(jobs[..n], stores, up);
      RoundConserves(jobs[..n], stores, up);
      if !Dead(jobs[..n], r.outcomes, jobs[n].addr) {
        var t := TakeFrom(r.stores, jobs[n].client, jobs[n].handles, up(n));
        TakeFromConserves(r.stores, jobs[n].client, jobs[n].handles, up(n));
        ConservedChains(stores, r.log, r.stores, t.log, t.stores);
      }
    }
  }

  lemma JobGrowsLog(r: Round, job: DrainJob, dead: bool, up: nat -> bool)
    ensures var after := RunJob(r, job, dead, up).log;
      r.log <= after && forall l :: l in after[|r.log|..] ==> l.client == job.client
  {
    TakeFromConserves(r.stores, job.client, job.handles, up);
  }

  /** The harvest is in job order: what job `i` took follows what the jobs before it took. */
  lemma HarvestInJobOrder(jobs: seq<DrainJob>, stores: Stores, up: Line, i: nat)
    requires i < |jobs|
    ensures var before, after := Run(jobs[..i], stores, up).log, Run(jobs[..i + 1], stores, up).log;
      && before <= after <= Run(jobs, stores, up).log
      && (forall l :: l in after[|before|..] ==> l.client == jobs[i].client)
  {
    RunStep(jobs, i, stores, up);
    var r := Run(jobs[..i], stores, up);
    JobGrowsLog(r, jobs[i], Dead(jobs[..i], r.outcomes, jobs[i].addr), up(i));
    LogGrows(jobs, stores, up, i + 1);
  }

  lemma {:induction false} LogGrows(jobs: seq<DrainJob>, stores: Stores, up: Line, i: nat)
    requires i <= |jobs|
    ensures Run(jobs[..i], stores, up).log <= Run(jobs, stores, up).log
    decreases |jobs|
  {
    if i == |jobs| {
      assert jobs[..i] == jobs;
    } else {
      var n := |jobs| - 1;
      var r := Run(jobs[..n], stores, up);
      JobGrowsLog(r, jobs[n], Dead(jobs[..n], r.outcomes, jobs[n].addr), up(n));
      LogGrows(jobs[..n], stores, up, i);
      assert jobs[..n][..i] == jobs[..i];
    }
  }

  // ---------------------------------------------------------------- cost and fairness

  function JobsOn(jobs: seq<DrainJob>, addr: Option<string>): nat {
    if jobs == [] then 0
    else JobsOn(jobs[..|jobs| - 1], addr) + if jobs[|jobs| - 1].addr == addr then 1 else 0
  }

  function Least(a: nat, b: nat): nat {
    if a < b then a else b
  }

  /** A relay that answers nothing costs two failed takes at most; one that answers at all has every fragment tried. */
  lemma {:induction false} RelayTally(jobs: seq<DrainJob>, stores: Stores, up: Line, addr: Option<string>)
    ensures var o := Run(jobs, stores, up).outcomes;
      var (ok, failed) := (Count(jobs, o, addr, Answered), Count(jobs, o, addr, Unanswered));
      var skipped := Count(jobs, o, addr, Skipped);
      && ok + failed + skipped == JobsOn(jobs, addr)
      && (ok == 0 ==> failed == Least(JobsOn(jobs, addr), 2))
      && (ok > 0 ==> skipped == 0)
  {
    if jobs != [] {
      var n := |jobs| - 1;
      RelayTally(jobs[..n], stores, up, addr);
      assert Run(jobs, stores, up).outcomes[..n] == Run(jobs[..n], stores, up).outcomes;
    }
  }

  // ---------------------------------------------------------------- what counts as answered

  /** The take of a job gets through. */
  ghost predicate JobUp(stores: Stores, job: DrainJob, up: nat -> bool) {
    if job.client in stores then GetsThrough(stores[job.client].modern, job.handles, up) else job.handles == []
  }

  lemma TakeFromOkIff(stores: Stores, job: DrainJob, up: nat -> bool)
    ensures TakeFrom(stores, job.client, job.handles, up).ok <==> JobUp(stores, job, up)
  {
    if job.client in stores {
      TakeOkIff(job.client, stores[job.client].modern, stores[job.client].boxes, job.handles, up);
    }
  }

  lemma LastOutcomeTells(jobs: seq<DrainJob>, stores: Stores, up: Line)
    requires jobs != []
    ensures var n, o := |jobs| - 1, Run(jobs, stores, up).outcomes;
      && o[..n] == Run(jobs[..n], stores, up).outcomes
      && o[n] == if Dead(jobs[..n], o[..n], jobs[n].addr) then Skipped
                 else if JobUp(stores, jobs[n], up(n)) then Answered else Unanswered
  {
    var n := |jobs| - 1;
    var r := Run(jobs[..n], stores, up);
    RoundConserves(jobs[..n], stores, up);
    TakeFromOkIff(r.stores, jobs[n], up(n));
  }

  /** A job that is tried is answered exactly when its take gets through, and one is skipped only on a dead relay. */
  lemma {:induction false} OutcomeIff(jobs: seq<DrainJob>, stores: Stores, up: Line, i: nat)
    requires i < |jobs|
    ensures var o := Run(jobs, stores, up).outcomes;
      o[i] == if Dead(jobs[..i], o[..i], jobs[i].addr) then Skipped
              else if JobUp(stores, jobs[i], up(i)) then Answered else Unanswered
    decreases |jobs|
  {
    var n := |jobs| - 1;
    LastOutcomeTells(jobs, stores, up);
    if i < n {
      OutcomeIff(jobs[..n], stores, up, i);
      var o := Run(jobs, stores, up).outcomes;
      assert jobs[..n][..i] == jobs[..i] && o[..n][..i] == o[..i];
    }
  }

  lemma {:induction false} NoneUnanswered(jobs: seq<DrainJob>, outcomes: seq<Outcome>, addr: Option<string>)
    requires |jobs| == |outcomes|
    requires forall i :: 0 <= i < |jobs| && jobs[i].addr == addr ==> outcomes[i] == Answered
    ensures Count(jobs, outcomes, addr, Unanswered) == 0
    ensures (exists i :: 0 <= i < |jobs| && jobs[i].addr == addr) ==> Count(jobs, outcomes, addr, Answered) > 0
  {
    if jobs != [] {
      NoneUnanswered(jobs[..|jobs| - 1], outcomes[..|jobs| - 1], addr);
    }
  }

  /** On a relay all of whose takes get through every job is answered: none fails and none is skipped. */
  lemma {:induction false} LiveRelayAnswersAll(jobs: seq<DrainJob>, stores: Stores, up: Line, addr: Option<string>)
    requires forall i :: 0 <= i < |jobs| && jobs[i].addr == addr ==> JobUp(stores, jobs[i], up(i))
    ensures var o := Run(jobs, stores, up).outcomes;
      forall i :: 0 <= i < |jobs| && jobs[i].addr == addr ==> o[i] == Answered
  {
    if jobs != [] {
      var n := |jobs| - 1;
      LiveRelayAnswersAll(jobs[..n], stores, up, addr);
      LastOutcomeTells(jobs, stores, up);
      NoneUnanswered(jobs[..n], Run(jobs[..n], stores, up).outcomes, addr);
    }
  }

  /** The round asks for the epoch, and every take on each relay it is asked for on gets through. */
  ghost predicate EpochUp(plan: Plan, stores: Stores, up: Line) {
    forall i :: 0 <= i < |plan.jobs| && plan.jobs[i].epoch == plan.settles ==>
      forall j :: 0 <= j < |plan.jobs| && plan.jobs[j].addr == plan.jobs[i].addr ==> JobUp(stores, plan.jobs[j], up(j))
  }

  /** Then the round settles it. */
  lemma LiveRoundSettles(plan: Plan, stores: Stores, up: Line)
    requires EpochUp(plan, stores, up)
    ensures Settled(plan, Run(plan.jobs, stores, up).outcomes) == plan.settles
  {
    var o := Run(plan.jobs, stores, up).outcomes;
    forall i | 0 <= i < |plan.jobs| && plan.jobs[i].epoch == plan.settles ensures o[i] == Answered {
      LiveRelayAnswersAll(plan.jobs, stores, up, plan.jobs[i].addr);
    }
  }

  /** And a relay all of whose takes get through counts as reachable. */
  lemma LiveRelayIsReached(jobs: seq<DrainJob>, stores: Stores, up: Line, answered: seq<(string, bool)>, addr: string)
    requires Reached(answered, jobs, Run(jobs, stores, up).outcomes)
    requires forall i :: 0 <= i < |jobs| && jobs[i].addr == Some(addr) ==> JobUp(stores, jobs[i], up(i))
    requires exists i :: 0 <= i < |jobs| && jobs[i].addr == Some(addr)
    ensures (addr, true) in answered
  {
    var o := Run(jobs, stores, up).outcomes;
    LiveRelayAnswersAll(jobs, stores, up, Some(addr));
    NoneUnanswered(jobs, o, Some(addr));
    CountAtMost(jobs, o, Some(addr), Answered);
    assert ReachedAt(answered, jobs, o, addr);
    assert answered[Entry(answered, addr)] in answered;
  }

  // ---------------------------------------------------------------- settling an epoch

  predicate SettledSoFar(plan: Plan, outcomes: seq<Outcome>)
    requires |outcomes| <= |plan.jobs|
  {
    forall i :: 0 <= i < |outcomes| && plan.jobs[i].epoch == plan.settles ==> outcomes[i] == Answered
  }

  function Settled(plan: Plan, outcomes: seq<Outcome>): Option<nat>
    requires |outcomes| == |plan.jobs|
  {
    if plan.settles.Some? && SettledSoFar(plan, outcomes) then plan.settles else None
  }

  predicate JobEmptied(stores: Stores, job: DrainJob) {
    forall h :: h in job.handles ==> Box(stores, job.client, h) == []
  }

  predicate EpochEmptied(stores: Stores, jobs: seq<DrainJob>, e: nat) {
    forall i :: 0 <= i < |jobs| && jobs[i].epoch == Some(e) ==> JobEmptied(stores, jobs[i])
  }

  /** Every take of the epoch gets through for each handle with mail, and that mail fits the responses. */
  predicate EpochFits(stores: Stores, jobs: seq<DrainJob>, e: nat, up: Line) {
    forall i :: 0 <= i < |jobs| && jobs[i].epoch == Some(e) ==> JobFits(stores, jobs[i], up(i))
  }

  predicate JobFits(stores: Stores, job: DrainJob, up: nat -> bool) {
    job.client in stores ==> TakeFits(stores[job.client].modern, stores[job.client].boxes, job.handles, up)
  }

  /** No handle is asked for by two jobs on the same relay. */
  predicate Apart(jobs: seq<DrainJob>) {
    forall i, j, h ::
      0 <= i < j < |jobs| && jobs[i].client == jobs[j].client && h in jobs[i].handles ==> h !in jobs[j].handles
  }

  /** One answered take whose relay answers, but whose second handle's own take is lost. */
  function StrandingPlan(): Plan {
    Plan([DrainJob(None, "relay", Some(7), ["a", "b"])], Some(7))
  }

  function StrandingStores(): Stores {
    map["relay" := Store(false, map["b" := [[1]]])]
  }

  /** A settled epoch may still hold mail: an older relay lost one of the fallback's takes. */
  lemma SettledMayLeaveMail()
    ensures var r := Run(StrandingPlan().jobs, StrandingStores(), i => k => k != 2);
      && Settled(StrandingPlan(), r.outcomes) == Some(7)
      && Box(r.stores, "relay", "b") == [[1]]
  {
    var up: Line := i => k => k != 2;
    var jobs, handles := StrandingPlan().jobs, ["a", "b"];
    var boxes: Boxes := map["b" := [[1]]];
    assert jobs[..0] == [];
    assert handles[..1] == ["a"] && handles[..1][..0] == [];
    assert Each("relay", boxes, handles[..1][..0], 1, up(0)) == Taken(false, [], boxes);
    assert Each("relay", boxes, handles[..1], 1, up(0)).boxes == boxes;
    assert Each("relay", boxes, handles, 1, up(0)) == Each("relay", boxes, handles[..1], 1, up(0));
  }

  lemma {:induction false} LoadSame(a: Boxes, b: Boxes, handles: seq<string>)
    requires forall h :: h in handles ==> Queue(a, h) == Queue(b, h)
    ensures Load(a, handles) == Load(b, handles) && FirstBlob(a, handles) == FirstBlob(b, handles)
  {
    if handles != [] {
      assert handles == handles[..|handles| - 1] + [handles[|handles| - 1]];
      LoadSame(a, b, handles[..|handles| - 1]);
    }
  }

  lemma JobFitsSame(a: Stores, b: Stores, job: DrainJob, up: nat -> bool)
    requires a.Keys == b.Keys && forall c :: c in a ==> a[c].modern == b[c].modern
    requires forall h :: h in job.handles ==> Box(a, job.client, h) == Box(b, job.client, h)
    ensures JobFits(a, job, up) == JobFits(b, job, up)
  {
    if job.client in a {
      var x, y := a[job.client].boxes, b[job.client].boxes;
      forall h | h in job.handles ensures Queue(x, h) == Queue(y, h) {
        assert Box(a, job.client, h) == Box(b, job.client, h);
      }
      LoadSame(x, y, job.handles);
      forall from: nat ensures EachFits(x, job.handles, from, up) == EachFits(y, job.handles, from, up) {
      }
    }
  }

  lemma LastJobTouchesOnly(jobs: seq<DrainJob>, stores: Stores, up: Line, client: string, handle: string)
    requires jobs != [] && (jobs[|jobs| - 1].client == client ==> handle !in jobs[|jobs| - 1].handles)
    ensures Box(Run(jobs, stores, up).stores, client, handle)
         == Box(Run(jobs[..|jobs| - 1], stores, up).stores, client, handle)
  {
    var n := |jobs| - 1;
    TakeFromConserves(Run(jobs[..n], stores, up).stores, jobs[n].client, jobs[n].handles, up(n));
  }

  /** A round leaves alone every mailbox no job names. */
  lemma {:induction false} RoundTouchesOnly(jobs: seq<DrainJob>, stores: Stores, up: Line, client: string,
                                            handle: string)
    requires forall i :: 0 <= i < |jobs| && jobs[i].client == client ==> handle !in jobs[i].handles
    ensures Box(Run(jobs, stores, up).stores, client, handle) == Box(stores, client, handle)
  {
    if jobs != [] {
      RoundTouchesOnly(jobs[..|jobs| - 1], stores, up, client, handle);
      LastJobTouchesOnly(jobs, stores, up, client, handle);
    }
  }

  lemma TakeFromEmptiesIff(stores: Stores, job: DrainJob, up: nat -> bool)
    requires TakeFrom(stores, job.client, job.handles, up).ok
    ensures JobEmptied(TakeFrom(stores, job.client, job.handles, up).stores, job) <==> JobFits(stores, job, up)
  {
    if job.client in stores {
      var s := stores[job.client];
      TakeEmptiesIff(job.client, s.modern, s.boxes, job.handles, up);
      var after := TakeFrom(stores, job.client, job.handles, up).stores;
      assert JobEmptied(after, job) <==> Emptied(after[job.client].boxes, job.handles);
    }
  }

  lemma LastJobEmptiedIff(jobs: seq<DrainJob>, stores: Stores, up: Line)
    requires Apart(jobs) && jobs != [] && Run(jobs, stores, up).outcomes[|jobs| - 1] == Answered
    ensures JobEmptied(Run(jobs, stores, up).stores, jobs[|jobs| - 1])
       <==> JobFits(stores, jobs[|jobs| - 1], up(|jobs| - 1))
  {
    var n := |jobs| - 1;
    var r := Run(jobs[..n], stores, up);
    RoundConserves(jobs[..n], stores, up);
    forall h | h in jobs[n].handles ensures Box(r.stores, jobs[n].client, h) == Box(stores, jobs[n].client, h) {
      RoundTouchesOnly(jobs[..n], stores, up, jobs[n].client, h);
    }
    JobFitsSame(stores, r.stores, jobs[n], up(n));
    TakeFromEmptiesIff(r.stores, jobs[n], up(n));
  }

  lemma EarlierJobStays(jobs: seq<DrainJob>, stores: Stores, up: Line, i: nat)
    requires Apart(jobs) && i < |jobs| - 1
    ensures JobEmptied(Run(jobs, stores, up).stores, jobs[i])
       <==> JobEmptied(Run(jobs[..|jobs| - 1], stores, up).stores, jobs[i])
  {
    forall h | h in jobs[i].handles
      ensures Box(Run(jobs, stores, up).stores, jobs[i].client, h)
           == Box(Run(jobs[..|jobs| - 1], stores, up).stores, jobs[i].client, h)
    {
      LastJobTouchesOnly(jobs, stores, up, jobs[i].client, h);
    }
  }

  /** An answered job emptied its handles exactly when their mail, as the round found it, fits. */
  lemma {:induction false} JobEmptiedIff(jobs: seq<DrainJob>, stores: Stores, up: Line, i: nat)
    requires Apart(jobs) && i < |jobs| && Run(jobs, stores, up).outcomes[i] == Answered
    ensures JobEmptied(Run(jobs, stores, up).stores, jobs[i]) <==> JobFits(stores, jobs[i], up(i))
    decreases |jobs|
  {
    if i < |jobs| - 1 {
      JobEmptiedIff(jobs[..|jobs| - 1], stores, up, i);
      EarlierJobStays(jobs, stores, up, i);
    } else {
      LastJobEmptiedIff(jobs, stores, up);
    }
  }

  /** Settling is sound exactly when every take of the epoch got through and its mail fits the responses. */
  lemma SettledIsEmptyIff(plan: Plan, stores: Stores, up: Line, e: nat)
    requires Apart(plan.jobs) && Settled(plan, Run(plan.jobs, stores, up).outcomes) == Some(e)
    ensures EpochEmptied(Run(plan.jobs, stores, up).stores, plan.jobs, e) <==> EpochFits(stores, plan.jobs, e, up)
  {
    var r := Run(plan.jobs, stores, up);
    forall i | 0 <= i < |plan.jobs| && plan.jobs[i].epoch == Some(e)
      ensures JobEmptied(r.stores, plan.jobs[i]) <==> JobFits(stores, plan.jobs[i], up(i))
    {
      JobEmptiedIff(plan.jobs, stores, up, i);
    }
  }

  // ---------------------------------------------------------------- the loop that does it

  datatype Tally = Tally(addr: Option<string>, ok: nat, failed: nat)

  function Position(tally: seq<Tally>, addr: Option<string>): (i: nat)
    ensures i <= |tally|
    ensures i < |tally| ==> tally[i].addr == addr
    ensures forall j :: 0 <= j < i ==> tally[j].addr != addr
  {
    if tally == [] || tally[0].addr == addr then 0 else 1 + Position(tally[1..], addr)
  }

  function Entry(answered: seq<(string, bool)>, addr: string): (i: nat)
    ensures i <= |answered|
    ensures i < |answered| ==> answered[i].0 == addr
    ensures forall j :: 0 <= j < i ==> answered[j].0 != addr
  {
    if answered == [] || answered[0].0 == addr then 0 else 1 + Entry(answered[1..], addr)
  }

  /** The tally says, of every relay, how many of its takes were answered and how many were not. */
  ghost predicate Tallied(tally: seq<Tally>, jobs: seq<DrainJob>, outcomes: seq<Outcome>)
    requires |jobs| == |outcomes|
  {
    forall addr :: TalliedAt(tally, jobs, outcomes, addr)
  }

  predicate TalliedAt(tally: seq<Tally>, jobs: seq<DrainJob>, outcomes: seq<Outcome>, addr: Option<string>)
    requires |jobs| == |outcomes|
  {
    TallyOf(tally, addr) == Tally(addr, Count(jobs, outcomes, addr, Answered), Count(jobs, outcomes, addr, Unanswered))
  }

  function TallyOf(tally: seq<Tally>, addr: Option<string>): Tally {
    var i := Position(tally, addr);
    if i < |tally| then tally[i] else Tally(addr, 0, 0)
  }

  /** Each addressed relay once, reachable when some take on it answered. */
  ghost predicate Reached(answered: seq<(string, bool)>, jobs: seq<DrainJob>, outcomes: seq<Outcome>)
    requires |jobs| == |outcomes|
  {
    && (forall i, j :: 0 <= i < j < |answered| ==> answered[i].0 != answered[j].0)
    && (forall addr :: ReachedAt(answered, jobs, outcomes, addr))
  }

  predicate ReachedAt(answered: seq<(string, bool)>, jobs: seq<DrainJob>, outcomes: seq<Outcome>, addr: string)
    requires |jobs| == |outcomes|
  {
    var i := Entry(answered, addr);
    && (i < |answered| <==> JobsOn(jobs, Some(addr)) > 0)
    && (i < |answered| ==> (answered[i].1 <==> Count(jobs, outcomes, Some(addr), Answered) > 0))
  }

  lemma {:induction false} PositionUpdated(tally: seq<Tally>, k: nat, t: Tally, addr: Option<string>)
    requires k < |tally| && tally[k].addr == t.addr
    ensures Position(tally[k := t], addr) == Position(tally, addr)
  {
    var tally' := tally[k := t];
    if k == 0 {
      assert tally'[1..] == tally[1..];
    } else {
      PositionUpdated(tally[1..], k - 1, t, addr);
      assert tally'[1..] == tally[1..][k - 1 := t];
    }
  }

  lemma TallyUpdated(tally: seq<Tally>, t: Tally, addr: Option<string>)
    requires Position(tally, t.addr) < |tally|
    ensures TallyOf(tally[Position(tally, t.addr) := t], addr) == if addr == t.addr then t else TallyOf(tally, addr)
  {
    PositionUpdated(tally, Position(tally, t.addr), t, addr);
  }

  lemma {:induction false} PositionAppended(tally: seq<Tally>, t: Tally, addr: Option<string>)
    ensures var i := Position(tally, addr);
      Position(tally + [t], addr) == if i < |tally| || t.addr == addr then i else |tally| + 1
  {
    if tally == [] {
      assert tally + [t] == [t] && [t][1..] == [];
    } else {
      PositionAppended(tally[1..], t, addr);
      assert (tally + [t])[1..] == tally[1..] + [t];
    }
  }

  lemma CountGrows(jobs: seq<DrainJob>, outcomes: seq<Outcome>, job: DrainJob, o: Outcome, addr: Option<string>,
                   x: Outcome)
    requires |jobs| == |outcomes|
    ensures Count(jobs + [job], outcomes + [o], addr, x)
         == Count(jobs, outcomes, addr, x) + if job.addr == addr && o == x then 1 else 0
    ensures JobsOn(jobs + [job], addr) == JobsOn(jobs, addr) + if job.addr == addr then 1 else 0
  {
    assert (jobs + [job])[..|jobs|] == jobs && (outcomes + [o])[..|outcomes|] == outcomes;
  }

  lemma {:induction false} CountAtMost(jobs: seq<DrainJob>, outcomes: seq<Outcome>, addr: Option<string>, x: Outcome)
    requires |jobs| == |outcomes|
    ensures Count(jobs, outcomes, addr, x) <= JobsOn(jobs, addr)
  {
    if jobs != [] {
      CountAtMost(jobs[..|jobs| - 1], outcomes[..|jobs| - 1], addr, x);
    }
  }

  lemma TallyOpens(tally: seq<Tally>, jobs: seq<DrainJob>, outcomes: seq<Outcome>, addr: Option<string>)
    requires |jobs| == |outcomes| && Tallied(tally, jobs, outcomes) && Position(tally, addr) == |tally|
    ensures Tallied(tally + [Tally(addr, 0, 0)], jobs, outcomes)
    ensures Position(tally + [Tally(addr, 0, 0)], addr) == |tally|
  {
    var tally' := tally + [Tally(addr, 0, 0)];
    forall a ensures TalliedAt(tally', jobs, outcomes, a) {
      assert TalliedAt(tally, jobs, outcomes, a);
      PositionAppended(tally, Tally(addr, 0, 0), a);
    }
    PositionAppended(tally, Tally(addr, 0, 0), addr);
  }

  lemma TallyCounts(tally: seq<Tally>, jobs: seq<DrainJob>, outcomes: seq<Outcome>, job: DrainJob, o: Outcome, t: Tally)
    requires |jobs| == |outcomes| && Tallied(tally, jobs, outcomes)
    requires var k := Position(tally, job.addr);
      k < |tally| && t == Tally(job.addr, tally[k].ok + (if o == Answered then 1 else 0),
                                tally[k].failed + (if o == Unanswered then 1 else 0))
    ensures Tallied(tally[Position(tally, job.addr) := t], jobs + [job], outcomes + [o])
  {
    assert TallyOf(tally, job.addr) == tally[Position(tally, job.addr)];
    var tally', jobs', outcomes' := tally[Position(tally, job.addr) := t], jobs + [job], outcomes + [o];
    forall a ensures TalliedAt(tally', jobs', outcomes', a) {
      assert TalliedAt(tally, jobs, outcomes, a);
      TallyCountsAt(tally, jobs, outcomes, job, o, t, a);
    }
  }

  lemma {:induction false} TallyCountsAt(tally: seq<Tally>, jobs: seq<DrainJob>, outcomes: seq<Outcome>,
                                         job: DrainJob, o: Outcome, t: Tally, a: Option<string>)
    requires |jobs| == |outcomes| && Position(tally, job.addr) < |tally|
    requires TalliedAt(tally, jobs, outcomes, a)
    requires var before := TallyOf(tally, job.addr);
      t == Tally(job.addr, before.ok + (if o == Answered then 1 else 0),
                 before.failed + (if o == Unanswered then 1 else 0))
    ensures TalliedAt(tally[Position(tally, job.addr) := t], jobs + [job], outcomes + [o], a)
  {
    TallyUpdated(tally, t, a);
    CountGrows(jobs, outcomes, job, o, a, Answered);
    CountGrows(jobs, outcomes, job, o, a, Unanswered);
  }

  function Noted(answered: seq<(string, bool)>, addr: string, ok: bool): seq<(string, bool)> {
    var i := Entry(answered, addr);
    if i < |answered| then answered[i := (addr, answered[i].1 || ok)] else answered + [(addr, ok)]
  }

  lemma {:induction false} EntryUpdated(answered: seq<(string, bool)>, addr: string, ok: bool, a: string)
    requires Entry(answered, addr) < |answered|
    ensures Entry(answered[Entry(answered, addr) := (addr, ok)], a) == Entry(answered, a)
  {
    var k := Entry(answered, addr);
    var answered' := answered[k := (addr, ok)];
    if k == 0 {
      assert answered'[1..] == answered[1..];
    } else {
      EntryUpdated(answered[1..], addr, ok, a);
      assert answered'[1..] == answered[1..][k - 1 := (addr, ok)];
    }
  }

  lemma {:induction false} EntryAppended(answered: seq<(string, bool)>, x: (string, bool), a: string)
    ensures var i := Entry(answered, a);
      Entry(answered + [x], a) == if i < |answered| || x.0 == a then i else |answered| + 1
  {
    if answered == [] {
      assert answered + [x] == [x] && [x][1..] == [];
    } else {
      EntryAppended(answered[1..], x, a);
      assert (answered + [x])[1..] == answered[1..] + [x];
    }
  }

  lemma EntryNoted(answered: seq<(string, bool)>, addr: string, ok: bool, a: string)
    ensures var i, n := Entry(answered, a), |Noted(answered, addr, ok)|;
      Entry(Noted(answered, addr, ok), a) == if i < |answered| || a == addr then i else n
  {
    var k := Entry(answered, addr);
    if k < |answered| {
      EntryUpdated(answered, addr, answered[k].1 || ok, a);
    } else {
      EntryAppended(answered, (addr, ok), a);
    }
  }

  lemma NotedReaches(answered: seq<(string, bool)>, jobs: seq<DrainJob>, outcomes: seq<Outcome>, job: DrainJob,
                     o: Outcome)
    requires |jobs| == |outcomes| && Reached(answered, jobs, outcomes) && job.addr.Some?
    ensures Reached(Noted(answered, job.addr.value, o == Answered), jobs + [job], outcomes + [o])
  {
    var addr := job.addr.value;
    var answered', jobs', outcomes' := Noted(answered, addr, o == Answered), jobs + [job], outcomes + [o];
    forall a ensures ReachedAt(answered', jobs', outcomes', a) {
      assert ReachedAt(answered, jobs, outcomes, a);
      EntryNoted(answered, addr, o == Answered, a);
      CountGrows(jobs, outcomes, job, o, Some(a), Answered);
      CountAtMost(jobs, outcomes, Some(a), Answered);
    }
  }

  /** A take on the primary adds no name; nor does a skip, whose relay was tried before. */
  lemma OthersReach(answered: seq<(string, bool)>, jobs: seq<DrainJob>, outcomes: seq<Outcome>, job: DrainJob,
                    o: Outcome)
    requires |jobs| == |outcomes| && Reached(answered, jobs, outcomes)
    requires job.addr.None? || (o == Skipped && JobsOn(jobs, job.addr) > 0)
    ensures Reached(answered, jobs + [job], outcomes + [o])
  {
    var jobs', outcomes' := jobs + [job], outcomes + [o];
    forall a ensures ReachedAt(answered, jobs', outcomes', a) {
      assert ReachedAt(answered, jobs, outcomes, a);
      CountGrows(jobs, outcomes, job, o, Some(a), Answered);
    }
  }

  /** The relays, as the drain finds and leaves them; `log` is history: every letter taken. */
  class Network {
    var stores: Stores
    ghost var log: seq<Letter>

    constructor (stores: Stores)
      ensures this.stores == stores && log == []
    {
      this.stores, log := stores, [];
    }

    method TakeMany(client: string, handles: seq<string>, up: nat -> bool) returns (r: Result<seq<Blob>, ()>)
      modifies this
      ensures var t := TakeFrom(old(stores), client, handles, up);
        && stores == t.stores && log == old(log) + t.log
        && r == if t.ok then Ok(Bodies(t.log)) else Err(())
    {
      if client !in stores {
        assert Bodies([]) == [];
        return if handles == [] then Ok([]) else Err(());
      }
      var relay := new Relay(client, stores[client].modern, stores[client].boxes);
      r := relay.TakeMany(handles, up);
      log := log + relay.log;
      stores := stores[client := stores[client].(boxes := relay.boxes)];
    }
  }

  /** The loop's own variables. */
  datatype Ledger = Ledger(
    blobs: seq<Blob>,
    answered: seq<(string, bool)>,
    tally: seq<Tally>,
    summary: Summary,
    settleOk: bool)

  /** `l` agrees with the round so far. */
  ghost predicate Tracks(l: Ledger, plan: Plan, r: Round)
    requires |r.outcomes| <= |plan.jobs|
  {
    var jobs := plan.jobs[..|r.outcomes|];
    && l.blobs == Bodies(r.log)
    && Tallied(l.tally, jobs, r.outcomes)
    && Reached(l.answered, jobs, r.outcomes)
    && l.summary == SummaryOf(r.outcomes)
    && l.settleOk == (plan.settles.Some? && SettledSoFar(plan, r.outcomes))
  }

  /** How many jobs came out each way. */
  function SummaryOf(outcomes: seq<Outcome>): Summary {
    if outcomes == [] then Summary(0, 0, 0)
    else
      var front := SummaryOf(outcomes[..|outcomes| - 1]);
      match outcomes[|outcomes| - 1]
      case Answered => front.(ok := front.ok + 1)
      case Unanswered => front.(failed := front.failed + 1)
      case Skipped => front.(skipped := front.skipped + 1)
  }

  lemma SummaryGrows(outcomes: seq<Outcome>, o: Outcome)
    ensures var s := SummaryOf(outcomes);
      SummaryOf(outcomes + [o]) == match o
        case Answered => s.(ok := s.ok + 1)
        case Unanswered => s.(failed := s.failed + 1)
        case Skipped => s.(skipped := s.skipped + 1)
  {
    assert (outcomes + [o])[..|outcomes|] == outcomes;
  }

  lemma {:induction false} SummaryCounts(outcomes: seq<Outcome>)
    ensures SummaryOf(outcomes)
         == Summary(multiset(outcomes)[Answered], multiset(outcomes)[Unanswered], multiset(outcomes)[Skipped])
  {
    if outcomes != [] {
      SummaryCounts(outcomes[..|outcomes| - 1]);
      assert outcomes == outcomes[..|outcomes| - 1] + [outcomes[|outcomes| - 1]];
    }
  }

  lemma BodiesSplit(a: seq<Letter>, b: seq<Letter>)
    ensures Bodies(a + b) == Bodies(a) + Bodies(b)
  {
  }

  /** The next outcome keeps the round settled so far unless it is a job of that epoch that was not answered. */
  lemma SettledStep(plan: Plan, outcomes: seq<Outcome>, o: Outcome)
    requires |outcomes| < |plan.jobs|
    ensures SettledSoFar(plan, outcomes + [o])
       <==> SettledSoFar(plan, outcomes) && (o == Answered || plan.jobs[|outcomes|].epoch != plan.settles)
  {
    var outcomes' := outcomes + [o];
    if SettledSoFar(plan, outcomes') {
      forall i | 0 <= i < |outcomes| && plan.jobs[i].epoch == plan.settles ensures outcomes[i] == Answered {
        assert outcomes'[i] == outcomes[i];
      }
      assert outcomes'[|outcomes|] == o;
    }
  }

  lemma RunStep(jobs: seq<DrainJob>, i: nat, stores: Stores, up: Line)
    requires i < |jobs|
    ensures jobs[..i + 1] == jobs[..i] + [jobs[i]]
    ensures var r := Run(jobs[..i], stores, up);
      Run(jobs[..i + 1], stores, up) == RunJob(r, jobs[i], Dead(jobs[..i], r.outcomes, jobs[i].addr), up(i))
  {
    assert jobs[..i + 1][..i] == jobs[..i];
  }

  lemma SkipTallied(tally: seq<Tally>, jobs: seq<DrainJob>, outcomes: seq<Outcome>, job: DrainJob)
    requires |jobs| == |outcomes| && Tallied(tally, jobs, outcomes)
    ensures Tallied(tally, jobs + [job], outcomes + [Skipped])
  {
    var jobs', outcomes' := jobs + [job], outcomes + [Skipped];
    forall a ensures TalliedAt(tally, jobs', outcomes', a) {
      assert TalliedAt(tally, jobs, outcomes, a);
      CountGrows(jobs, outcomes, job, Skipped, a, Answered);
      CountGrows(jobs, outcomes, job, Skipped, a, Unanswered);
    }
  }

  /** A job on a relay given up on. */
  method Skip(plan: Plan, l: Ledger, job: DrainJob, ghost r: Round) returns (l': Ledger)
    requires |r.outcomes| < |plan.jobs| && plan.jobs[|r.outcomes|] == job && Tracks(l, plan, r)
    requires Dead(plan.jobs[..|r.outcomes|], r.outcomes, job.addr)
    ensures Tracks(l', plan, r.(outcomes := r.outcomes + [Skipped]))
  {
    ghost var jobs := plan.jobs[..|r.outcomes|];
    assert plan.jobs[..|r.outcomes| + 1] == jobs + [job];
    CountAtMost(jobs, r.outcomes, job.addr, Unanswered);
    OthersReach(l.answered, jobs, r.outcomes, job, Skipped);
    SkipTallied(l.tally, jobs, r.outcomes, job);
    SettledStep(plan, r.outcomes, Skipped);
    SummaryGrows(r.outcomes, Skipped);
    l' := l.(summary := l.summary.(skipped := l.summary.skipped + 1),
             settleOk := l.settleOk && job.epoch != plan.settles);
  }

  /** A job that was tried, with what it brought. */
  method Note(plan: Plan, l: Ledger, job: DrainJob, taken: Result<seq<Blob>, ()>, ghost r: Round,
              ghost log: seq<Letter>,
              ghost stores: Stores)
    returns (l': Ledger)
    requires |r.outcomes| < |plan.jobs| && plan.jobs[|r.outcomes|] == job && Tracks(l, plan, r)
    requires Position(l.tally, job.addr) < |l.tally|
    requires if taken.Ok? then taken.value == Bodies(log) else log == []
    ensures Tracks(l', plan, Round(stores, r.log + log, r.outcomes + [if taken.Ok? then Answered else Unanswered]))
  {
    ghost var jobs, o := plan.jobs[..|r.outcomes|], if taken.Ok? then Answered else Unanswered;
    assert plan.jobs[..|r.outcomes| + 1] == jobs + [job];
    BodiesSplit(r.log, log);
    SettledStep(plan, r.outcomes, o);
    SummaryGrows(r.outcomes, o);
    var entry := Position(l.tally, job.addr);
    var t := l.tally[entry];
    if taken.Ok? {
      l' := l.(blobs := l.blobs + taken.value, tally := l.tally[entry := t.(ok := t.ok + 1)],
               summary := l.summary.(ok := l.summary.ok + 1));
    } else {
      l' := l.(tally := l.tally[entry := t.(failed := t.failed + 1)],
               summary := l.summary.(failed := l.summary.failed + 1),
               settleOk := l.settleOk && job.epoch != plan.settles);
    }
    TallyCounts(l.tally, jobs, r.outcomes, job, o, l'.tally[entry]);
    if job.addr.Some? {
      NotedReaches(l.answered, jobs, r.outcomes, job, o);
      l' := l'.(answered := Noted(l.answered, job.addr.value, taken.Ok?));
    } else {
      OthersReach(l.answered, jobs, r.outcomes, job, o);
    }
  }

  /** The relay's tally entry, opened when this is its first job. */
  method Open(plan: Plan, l: Ledger, job: DrainJob, ghost r: Round) returns (l': Ledger, entry: nat)
    requires |r.outcomes| < |plan.jobs| && plan.jobs[|r.outcomes|] == job && Tracks(l, plan, r)
    ensures Tracks(l', plan, r) && entry == Position(l'.tally, job.addr) < |l'.tally|
    ensures (l'.tally[entry].ok == 0 && l'.tally[entry].failed >= DEAD_AFTER)
       <==> Dead(plan.jobs[..|r.outcomes|], r.outcomes, job.addr)
  {
    l', entry := l, Position(l.tally, job.addr);
    if entry == |l.tally| {
      TallyOpens(l.tally, plan.jobs[..|r.outcomes|], r.outcomes, job.addr);
      l' := l.(tally := l.tally + [Tally(job.addr, 0, 0)]);
    }
    assert TalliedAt(l'.tally, plan.jobs[..|r.outcomes|], r.outcomes, job.addr);
    assert TallyOf(l'.tally, job.addr) == l'.tally[entry];
  }

  method DrainJobOnce(net: Network, plan: Plan, i: nat, l: Ledger, up: nat -> bool, ghost r: Round)
    returns (l': Ledger, ghost r': Round)
    requires i == |r.outcomes| < |plan.jobs| && Tracks(l, plan, r) && net.stores == r.stores && net.log == r.log
    modifies net
    ensures r' == RunJob(r, plan.jobs[i], Dead(plan.jobs[..i], r.outcomes, plan.jobs[i].addr), up)
    ensures |r'.outcomes| == i + 1 && Tracks(l', plan, r') && net.stores == r'.stores && net.log == r'.log
  {
    var job, entry := plan.jobs[i], 0;
    l', entry := Open(plan, l, job, r);
    r' := RunJob(r, job, Dead(plan.jobs[..i], r.outcomes, job.addr), up);
    if l'.tally[entry].ok == 0 && l'.tally[entry].failed >= DEAD_AFTER {
      l' := Skip(plan, l', job, r);
    } else {
      TakeFromConserves(net.stores, job.client, job.handles, up);
      var taken := net.TakeMany(job.client, job.handles, up);
      l' := Note(plan, l', job, taken, r, TakeFrom(r.stores, job.client, job.handles, up).log, net.stores);
    }
  }

  lemma {:induction false} AllAnswered(outcomes: seq<Outcome>)
    requires forall i :: 0 <= i < |outcomes| ==> outcomes[i] == Answered
    ensures SummaryOf(outcomes) == Summary(|outcomes|, 0, 0)
  {
    if outcomes != [] {
      AllAnswered(outcomes[..|outcomes| - 1]);
    }
  }

  /** Every take of the round gets through. */
  ghost predicate AllUp(plan: Plan, stores: Stores, up: Line) {
    forall i :: 0 <= i < |plan.jobs| ==> JobUp(stores, plan.jobs[i], up(i))
  }

  lemma LiveRoundAnswersAll(plan: Plan, stores: Stores, up: Line)
    requires AllUp(plan, stores, up)
    ensures SummaryOf(Run(plan.jobs, stores, up).outcomes) == Summary(|plan.jobs|, 0, 0)
  {
    var o := Run(plan.jobs, stores, up).outcomes;
    forall i | 0 <= i < |o| ensures o[i] == Answered {
      LiveRelayAnswersAll(plan.jobs, stores, up, plan.jobs[i].addr);
    }
    AllAnswered(o);
  }

  method DrainRelayMailboxes(net: Network, plan: Plan, up: Line) returns (harvest: Harvest, summary: Summary)
    requires net.log == []
    modifies net
    ensures var r := Run(plan.jobs, old(net.stores), up);
      && net.stores == r.stores && net.log == r.log
      && harvest.blobs == Bodies(r.log)
      && harvest.settled == Settled(plan, r.outcomes)
      && Reached(harvest.reachability, plan.jobs, r.outcomes)
      && summary == SummaryOf(r.outcomes)
    ensures EpochUp(plan, old(net.stores), up) ==> harvest.settled == plan.settles
    ensures AllUp(plan, old(net.stores), up) ==> summary == Summary(|plan.jobs|, 0, 0)
  {
    ghost var before := net.stores;
    var l := DrainAll(net, plan, up);
    assert plan.jobs[..|plan.jobs|] == plan.jobs;
    harvest := Harvest(l.blobs, l.answered, if l.settleOk then plan.settles else None);
    summary := l.summary;
    if EpochUp(plan, before, up) {
      LiveRoundSettles(plan, before, up);
    }
    if AllUp(plan, before, up) {
      LiveRoundAnswersAll(plan, before, up);
    }
  }

  method DrainAll(net: Network, plan: Plan, up: Line) returns (l: Ledger)
    requires net.log == []
    modifies net
    ensures var r := Run(plan.jobs, old(net.stores), up);
      net.stores == r.stores && net.log == r.log && Tracks(l, plan, r)
  {
    l := Ledger([], [], [], Summary(0, 0, 0), plan.settles.Some?);
    ghost var r := Round(net.stores, [], []);
    for i := 0 to |plan.jobs|
      invariant |r.outcomes| == i && Run(plan.jobs[..i], old(net.stores), up) == r
      invariant net.stores == r.stores && net.log == r.log
      invariant Tracks(l, plan, r)
    {
      RunStep(plan.jobs, i, old(net.stores), up);
      l, r := DrainJobOnce(net, plan, i, l, up(i), r);
    }
    assert plan.jobs[..|plan.jobs|] == plan.jobs;
  }
}
