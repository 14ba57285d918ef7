/** Which relays a drain round asks, and which of our own relays that leaves out. */
module DrainPlan {
  import opened Wrappers
  import opened RelayList
  import opened Posting
  import Drain

  // ---------------------------------------------------------------- the relays of a round

  /** `addr` is `None` for the Night Drop client. */
  datatype Planned = Planned(addr: Option<string>, client: RelayClient)

  function AsPlanned(onions: seq<string>): seq<Planned> {
    seq(|onions|, i requires 0 <= i < |onions| => Planned(Some(onions[i]), RelayClient(onions[i], true)))
  }

  /** The Night Drop client, and each onion to talk to once, the client's own address aside. */
  function PlanRelays(routes: Routes, polled: RelaySet): seq<Planned> {
    var (primary, onions) := ExpandRelaySet(routes, polled);
    (if primary.Some? then [Planned(None, primary.value)] else []) + AsPlanned(Extras(KnownPrimary(primary), onions))
  }

  lemma Gathered(first: seq<Planned>, added: seq<string>, seen: seq<string>, onions: seq<string>, i: nat)
    requires i < |onions|
    ensures onions[i] in seen ==> Extras(seen, onions[i..]) == Extras(seen, onions[i + 1..])
    ensures onions[i] !in seen ==>
              added + Extras(seen, onions[i..]) == added + [onions[i]] + Extras(seen + [onions[i]], onions[i + 1..])
    ensures first + AsPlanned(added + [onions[i]])
         == first + AsPlanned(added) + [Planned(Some(onions[i]), RelayClient(onions[i], true))]
  {
    assert onions[i..][0] == onions[i] && onions[i..][1..] == onions[i + 1..];
  }

  method GatherRelays(routes: Routes, polled: RelaySet) returns (relays: seq<Planned>)
    ensures relays == PlanRelays(routes, polled)
  {
    var targets := ExpandRelays(routes, polled);
    var (primary, onions) := targets;
    relays := if primary.Some? then [Planned(None, primary.value)] else [];
    relays := GatherOnions(relays, KnownPrimary(primary), onions);
  }

  method GatherOnions(first: seq<Planned>, known: seq<string>, onions: seq<string>) returns (relays: seq<Planned>)
    ensures relays == first + AsPlanned(Extras(known, onions))
  {
    relays := first;
    ghost var added: seq<string> := [];
    var seen := known;
    for i := 0 to |onions|
      invariant relays == first + AsPlanned(added)
      invariant added + Extras(seen, onions[i..]) == Extras(known, onions)
    {
      Gathered(first, added, seen, onions, i);
      if onions[i] !in seen {
        seen := seen + [onions[i]];
        relays := relays + [Planned(Some(onions[i]), RelayClient(onions[i], true))];
        added := added + [onions[i]];
      }
    }
    assert added == Extras(known, onions);
  }

  /** Whether a round over `relays` takes mail from `e`: Night Drop by its client, an onion by its address. */
  ghost predicate Drained(relays: seq<Planned>, e: RelayEntry) {
    match e
    case NightDrop => exists r :: r in relays && r.addr.None?
    case Onion(addr) => exists r :: r in relays && r.client.endpoint == addr
  }

  // ---------------------------------------------------------------- exactly which are drained

  /** Our list, then what still drains at `now`. */
  function Entitled(book: Book, now: nat): seq<RelayEntry> {
    book.list + Entries(StillDraining(book.draining, [], now))
  }

  function Onions(entries: seq<RelayEntry>): seq<string> {
    if entries == [] then []
    else
      var front, last := Onions(entries[..|entries| - 1]), entries[|entries| - 1];
      if last.Onion? then front + [last.addr] else front
  }

  predicate AmongFirst(onions: seq<string>, addr: string) {
    exists i :: 0 <= i < |onions| && i < MAX_RELAYS && onions[i] == addr
  }

  /** The Night Drop relay itself, or one the signed directory lists. */
  predicate IsNightDrops(routes: Routes, addr: string) {
    addr in routes.discovered || (routes.relay.Some? && routes.relay.value.endpoint == addr)
  }

  lemma {:induction false} OnionsAreSet(entries: seq<RelayEntry>)
    requires Distinct(entries)
    ensures Onions(entries) == SetOf(entries).relays
    ensures forall addr :: addr in Onions(entries) <==> Onion(addr) in entries
  {
    if entries != [] {
      OnionsAreSet(entries[..|entries| - 1]);
      LastIn(entries);
    }
  }

  lemma EntitledDistinct(book: Book, now: nat)
    requires Valid(book)
    ensures Distinct(Entitled(book, now))
  {
    var tail := StillDraining(book.draining, [], now);
    StillDrainingKeeps(book.draining, [], now);
    forall i | 0 <= i < |tail| ensures Entries(tail)[i] !in book.list {
      assert tail[i] in tail;
    }
  }

  lemma PlannedExact(routes: Routes, polled: RelaySet, e: RelayEntry)
    ensures Drained(PlanRelays(routes, polled), e)
       <==> match e
            case NightDrop => polled.nightdrop && routes.relay.Some?
            case Onion(addr) => AmongFirst(polled.relays, addr) || (polled.nightdrop && IsNightDrops(routes, addr))
  {
    var relays := PlanRelays(routes, polled);
    var (primary, onions) := ExpandRelaySet(routes, polled);
    var known := KnownPrimary(primary);
    var extras := Extras(known, onions);
    ExtrasExact(known, onions);
    var first := if primary.Some? then [Planned(None, primary.value)] else [];
    assert relays == first + AsPlanned(extras);
    if e.NightDrop? {
      if primary.Some? {
        assert relays[0].addr.None?;
      }
    } else {
      PlannedOnion(first, extras, e.addr);
      RouteExact(routes.(own := [NightDrop]), Some(""), Some(polled));
    }
  }

  lemma PlannedOnion(first: seq<Planned>, extras: seq<string>, addr: string)
    ensures Drained(first + AsPlanned(extras), Onion(addr))
       <==> addr in extras || exists r :: r in first && r.client.endpoint == addr
  {
    var relays := first + AsPlanned(extras);
    if addr in extras {
      var i :| 0 <= i < |extras| && extras[i] == addr;
      assert relays[|first| + i].client.endpoint == addr;
    }
    if r :| r in first && r.client.endpoint == addr {
      assert r in relays;
    }
  }

  /** What a round drains, of any list with any tail: no more than four onions, but for the directory's. */
  lemma DrainedIff(routes: Routes, book: Book, now: nat, e: RelayEntry)
    requires Valid(book)
    ensures var entitled := Entitled(book, now);
      Drained(PlanRelays(routes, PolledSet(book, now)), e)
      <==> match e
           case NightDrop => NightDrop in entitled && routes.relay.Some?
           case Onion(addr) =>
             AmongFirst(Onions(entitled), addr) || (NightDrop in entitled && IsNightDrops(routes, addr))
  {
    var entitled := Entitled(book, now);
    EntitledDistinct(book, now);
    OnionsAreSet(entitled);
    SetOfPolls(entitled, NightDrop);
    PlannedExact(routes, PolledSet(book, now), e);
  }

  /** So all of them are, while list and tail together name at most four onions. */
  lemma FewAreDrained(routes: Routes, book: Book, now: nat, e: RelayEntry)
    requires Valid(book) && e in Entitled(book, now) && |Onions(Entitled(book, now))| <= MAX_RELAYS
    ensures Drained(PlanRelays(routes, PolledSet(book, now)), e) <==> (e.NightDrop? ==> routes.relay.Some?)
  {
    DrainedIff(routes, book, now, e);
    EntitledDistinct(book, now);
    OnionsAreSet(Entitled(book, now));
  }

  lemma {:induction false} OnionsOfFront(a: seq<RelayEntry>, b: seq<RelayEntry>)
    ensures Onions(a) <= Onions(a + b) && |Onions(a)| <= |a|
  {
    if b != [] {
      assert (a + b)[..|a + b| - 1] == a + b[..|b| - 1];
      OnionsOfFront(a, b[..|b| - 1]);
    } else {
      assert a + b == a;
      if a != [] {
        OnionsOfFront(a[..|a| - 1], []);
      }
    }
  }

  /** And one that is on the list always is: the list itself has four entries at most. */
  lemma ListedIsDrained(routes: Routes, book: Book, now: nat, e: RelayEntry)
    requires Valid(book) && e in book.list
    ensures Drained(PlanRelays(routes, PolledSet(book, now)), e) <==> (e.NightDrop? ==> routes.relay.Some?)
  {
    DrainedIff(routes, book, now, e);
    OnionsAreSet(book.list);
    OnionsOfFront(book.list, Entries(StillDraining(book.draining, [], now)));
  }

  // ---------------------------------------------------------------- whole runs of edits

  /**
   * A relay listed at time `t` is drained at a `now` of the next 24 h, whatever edits came between, exactly when it is
   * Night Drop and there is a client, one of the first four onions of list and tail, or one Night Drop brings along.
   */
  lemma ListedOnceIsDrainedIff(routes: Routes, book: Book, edits: seq<Edit>, e: RelayEntry, t: nat, now: nat)
    requires Valid(book) && e in book.list
    requires forall i :: 0 <= i < |edits| ==> t <= edits[i].at <= now
    requires t <= now < t + RELAY_TTL
    ensures var book' := Run(book, edits);
      Drained(PlanRelays(routes, PolledSet(book', now)), e)
      <==> match e
           case NightDrop => routes.relay.Some?
           case Onion(addr) =>
             || AmongFirst(Onions(Entitled(book', now)), addr)
             || (NightDrop in Entitled(book', now) && IsNightDrops(routes, addr))
  {
    RunKeepsValid(book, edits);
    StaysInPolledSet(book, edits, e, t, now);
    SetOfPolls(Entitled(Run(book, edits), now), e);
    DrainedIff(routes, Run(book, edits), now, e);
  }

  /** What drains after an edit was on the list, or cut off it, or drained before. */
  lemma DrainingCameFrom(book: Book, request: seq<RelayEntry>, now: nat, d: Draining)
    requires d in SetList(book, request, now).draining
    ensures d in book.draining || d.0 in book.list || d.0 in Normalized(request).1
  {
    var (list, overflow) := Normalized(request);
    var gone := Leaving(book.list, list) + overflow;
    LeavingKeeps(book.list, list);
    RetireKeeps(book.draining, gone, now + RELAY_TTL);
    StillDrainingKeeps(Retire(book.draining, gone, now + RELAY_TTL), list, now);
  }

  lemma {:induction false} AllOnions(entries: seq<RelayEntry>)
    requires forall e :: e in entries ==> e.Onion?
    ensures |Onions(entries)| == |entries|
  {
    if entries != [] {
      LastIn(entries);
      AllOnions(entries[..|entries| - 1]);
    }
  }

  /** With four onions on the list and Night Drop not polled, nothing that drains is drained. */
  lemma FullListDrainsItself(routes: Routes, book: Book, now: nat, addr: string)
    requires Valid(book) && |book.list| == MAX_RELAYS && NightDrop !in Entitled(book, now)
    ensures Drained(PlanRelays(routes, PolledSet(book, now)), Onion(addr)) <==> Onion(addr) in book.list
  {
    DrainedIff(routes, book, now, Onion(addr));
    forall e | e in book.list ensures e.Onion? {
      assert e in Entitled(book, now);
    }
    AllOnions(book.list);
    OnionsAreSet(book.list);
    OnionsOfFront(book.list, Entries(StillDraining(book.draining, [], now)));
  }

  lemma NightDropIsNew(book: Book, request: seq<RelayEntry>, t: nat, now: nat)
    requires NightDrop !in Entitled(book, t) && book.draining == []
    requires Normalized(request) == (request, []) && NightDrop !in request
    ensures NightDrop !in Entitled(SetList(book, request, t), now)
  {
    var after := SetList(book, request, t);
    var tail := StillDraining(after.draining, [], now);
    StillDrainingKeeps(after.draining, [], now);
    forall i | 0 <= i < |tail| ensures Entries(tail)[i] != NightDrop {
      assert tail[i] in after.draining;
      DrainingCameFrom(book, request, t, tail[i]);
    }
  }

  /** A full list with one relay exchanged: the fifth onion is in the polled set for 24 h, and no round drains it. */
  lemma DroppedIsNotDrained(routes: Routes, book: Book, request: seq<RelayEntry>, addr: string, now: nat)
    requires Valid(book) && book.draining == [] && NightDrop !in book.list && Onion(addr) in book.list
    requires NormalList(request) && |request| == MAX_RELAYS && NightDrop !in request && Onion(addr) !in request
    requires now < RELAY_TTL
    ensures var after := SetList(book, request, 0);
      Polls(PolledSet(after, now), Onion(addr)) && !Drained(PlanRelays(routes, PolledSet(after, now)), Onion(addr))
  {
    var after, edits := SetList(book, request, 0), [Edit(request, 0)];
    NormalizedIsStable(request);
    SetListKeepsValid(book, request, 0);
    assert edits[..0] == [] && Run(book, edits) == after;
    StaysInPolledSet(book, edits, Onion(addr), 0, now);
    NightDropIsNew(book, request, 0, now);
    FullListDrainsItself(routes, after, now, addr);
  }

  /** Onions with one-letter addresses. */
  function Letters(addrs: string): seq<RelayEntry> {
    seq(|addrs|, i requires 0 <= i < |addrs| => Onion([addrs[i]]))
  }

  lemma LettersAreNormal(addrs: string)
    requires |addrs| <= MAX_RELAYS && Distinct(addrs) && forall c :: c in addrs ==> !IsWhitespace(c)
    ensures NormalList(Letters(addrs)) && NightDrop !in Letters(addrs)
    ensures forall c :: Onion([c]) in Letters(addrs) <==> c in addrs
  {
    var list := Letters(addrs);
    forall i | 0 <= i < |list| ensures NormalEntry(list[i]) {
    }
    forall i, j | 0 <= i < j < |list| ensures list[i] != list[j] {
      assert list[i].addr[0] == addrs[i] && list[j].addr[0] == addrs[j];
    }
    forall c ensures Onion([c]) in list <==> c in addrs {
      if c in addrs {
        var i :| 0 <= i < |addrs| && addrs[i] == c;
        assert list[i] == Onion([c]);
      }
    }
  }

  /** One such edit: [a, b, c, d] becomes [a, b, c, e], and d is not drained. */
  lemma OneExchanged(routes: Routes)
    ensures var after := SetList(Book(Letters("abcd"), []), Letters("abce"), 0);
      Polls(PolledSet(after, 1), Onion(['d'])) && !Drained(PlanRelays(routes, PolledSet(after, 1)), Onion(['d']))
  {
    LettersAreNormal("abcd");
    LettersAreNormal("abce");
    DroppedIsNotDrained(routes, Book(Letters("abcd"), []), Letters("abce"), ['d'], 1);
  }

  /** After its 24 h a dropped relay is drained exactly when Night Drop, while it is polled, brings it along. */
  lemma {:induction false} AfterTailDrainedIff(routes: Routes, book: Book, request: seq<RelayEntry>, edits: seq<Edit>,
                                               addr: string, t: nat, now: nat)
    requires Valid(book)
    requires Onion(addr) !in Normalized(request).0 && (Onion(addr) in book.list || Onion(addr) in Normalized(request).1)
    requires forall i :: 0 <= i < |edits| ==> Onion(addr) !in CleanedAll(edits[i].request)
    requires now >= t + RELAY_TTL
    ensures var book' := Run(SetList(book, request, t), edits);
      Drained(PlanRelays(routes, PolledSet(book', now)), Onion(addr))
      <==> NightDrop in Entitled(book', now) && IsNightDrops(routes, addr)
  {
    var book' := Run(SetList(book, request, t), edits);
    SetListKeepsValid(book, request, t);
    RunKeepsValid(SetList(book, request, t), edits);
    TailEnds(book, request, edits, Onion(addr), t, now);
    SetOfPolls(Entitled(book', now), Onion(addr));
    EntitledDistinct(book', now);
    OnionsAreSet(Entitled(book', now));
    DrainedIff(routes, book', now, Onion(addr));
  }

  // ---------------------------------------------------------------- what a round leaves behind

  /** One mailbox fragment to poll: its day and its handles. */
  datatype Fragment = Fragment(epoch: Option<nat>, handles: seq<string>)

  function JobFor(r: Planned, f: Fragment): Drain.DrainJob {
    Drain.DrainJob(r.addr, r.client.endpoint, f.epoch, f.handles)
  }

  function JobsOn(r: Planned, fragments: seq<Fragment>): seq<Drain.DrainJob> {
    seq(|fragments|, i requires 0 <= i < |fragments| => JobFor(r, fragments[i]))
  }

  /** Every fragment on every relay; a round takes them in any order. */
  function PlanJobs(relays: seq<Planned>, fragments: seq<Fragment>): seq<Drain.DrainJob> {
    if relays == [] then []
    else PlanJobs(relays[..|relays| - 1], fragments) + JobsOn(relays[|relays| - 1], fragments)
  }

  lemma {:induction false} PlanJobsExact(relays: seq<Planned>, fragments: seq<Fragment>, job: Drain.DrainJob)
    ensures job in PlanJobs(relays, fragments)
       <==> exists r, f :: r in relays && f in fragments && job == JobFor(r, f)
  {
    if relays != [] {
      var front, last := relays[..|relays| - 1], relays[|relays| - 1];
      PlanJobsExact(front, fragments, job);
      LastIn(relays);
      if f :| f in fragments && job == JobFor(last, f) {
        var i :| 0 <= i < |fragments| && fragments[i] == f;
        assert JobsOn(last, fragments)[i] == job;
      }
    }
  }

  /** A round asks a drained onion for every fragment, and leaves all mail where it is at one that is not drained. */
  lemma RoundReachesDrained(relays: seq<Planned>, fragments: seq<Fragment>, jobs: seq<Drain.DrainJob>,
                            stores: Drain.Stores, up: Drain.Line, addr: string)
    requires multiset(jobs) == multiset(PlanJobs(relays, fragments))
    ensures Drained(relays, Onion(addr)) ==>
              forall f :: f in fragments ==>
                exists job :: job in jobs && job.client == addr && job.handles == f.handles && job.epoch == f.epoch
    ensures !Drained(relays, Onion(addr)) ==>
              forall h :: Drain.Box(Drain.Run(jobs, stores, up).stores, addr, h) == Drain.Box(stores, addr, h)
  {
    assert forall job :: job in jobs <==> job in multiset(jobs);
    assert forall job :: job in PlanJobs(relays, fragments) <==> job in multiset(PlanJobs(relays, fragments));
    if Drained(relays, Onion(addr)) {
      var r :| r in relays && r.client.endpoint == addr;
      forall f | f in fragments
        ensures exists job :: job in jobs && job.client == addr && job.handles == f.handles && job.epoch == f.epoch
      {
        PlanJobsExact(relays, fragments, JobFor(r, f));
        assert JobFor(r, f) in jobs;
      }
    } else {
      forall i | 0 <= i < |jobs| ensures jobs[i].client != addr {
        assert jobs[i] in jobs;
        PlanJobsExact(relays, fragments, jobs[i]);
      }
      forall h ensures Drain.Box(Drain.Run(jobs, stores, up).stores, addr, h) == Drain.Box(stores, addr, h) {
        Drain.RoundTouchesOnly(jobs, stores, up, addr, h);
      }
    }
  }
}
