/** Our own relay list and its 24 h draining tail. */
module RelayList {
  import opened Wrappers

  const MAX_RELAYS: nat := 4
  const RELAY_TTL: nat := 24 * 60 * 60

  datatype RelayEntry = NightDrop | Onion(addr: string)

  /** A complete relay set: the Night Drop relay or not, and the onions besides it. */
  datatype RelaySet = RelaySet(nightdrop: bool, relays: seq<string>)

  type Draining = (RelayEntry, nat)

  // ---------------------------------------------------------------- sequences without repeats

  predicate Distinct<T(==)>(s: seq<T>) {
    forall i, j :: 0 <= i < j < |s| ==> s[i] != s[j]
  }

  /** First occurrences, in order. */
  function Dedup<T(==)>(s: seq<T>): seq<T> {
    if s == [] then []
    else
      var front := Dedup(s[..|s| - 1]);
      if s[|s| - 1] in front then front else front + [s[|s| - 1]]
  }

  lemma {:induction false} DedupKeepsElements<T>(s: seq<T>)
    ensures Distinct(Dedup(s))
    ensures forall x :: x in Dedup(s) <==> x in s
    ensures |Dedup(s)| <= |s|
  {
    if s != [] {
      var front, last := s[..|s| - 1], s[|s| - 1];
      DedupKeepsElements(front);
      assert s == front + [last];
    }
  }

  lemma DedupOfDistinct<T>(s: seq<T>)
    requires Distinct(s)
    ensures Dedup(s) == s
  {
    if s != [] {
      DedupOfDistinct(s[..|s| - 1]);
      DedupKeepsElements(s[..|s| - 1]);
      assert s == s[..|s| - 1] + [s[|s| - 1]];
    }
  }

  // ---------------------------------------------------------------- normalizing a list

  /** The Unicode White_Space property, which `str::trim` strips. */
  predicate IsWhitespace(c: char) {
    var n := c as int;
    0x09 <= n <= 0x0D || n == 0x20 || n == 0x85 || n == 0xA0 || n == 0x1680
    || 0x2000 <= n <= 0x200A || n == 0x2028 || n == 0x2029 || n == 0x202F || n == 0x205F
    || n == 0x3000
  }

  function TrimStart(s: string): (r: string) {
    if s != [] && IsWhitespace(s[0]) then TrimStart(s[1..]) else s
  }

  function TrimEnd(s: string): (r: string) {
    if s != [] && IsWhitespace(s[|s| - 1]) then TrimEnd(s[..|s| - 1]) else s
  }

  function Trim(s: string): string {
    TrimEnd(TrimStart(s))
  }

  predicate Trimmed(s: string) {
    s != [] ==> !IsWhitespace(s[0]) && !IsWhitespace(s[|s| - 1])
  }

  lemma TrimEndKeepsStart(s: string)
    ensures TrimEnd(s) != [] ==> s != [] && TrimEnd(s)[0] == s[0]
    ensures TrimEnd(s) != [] ==> !IsWhitespace(TrimEnd(s)[|TrimEnd(s)| - 1])
  {
  }

  lemma TrimStartStops(s: string)
    ensures TrimStart(s) != [] ==> !IsWhitespace(TrimStart(s)[0])
  {
  }

  lemma TrimIsTrimmed(s: string)
    ensures Trimmed(Trim(s))
  {
    TrimStartStops(s);
    TrimEndKeepsStart(TrimStart(s));
  }

  lemma TrimOfTrimmed(s: string)
    requires Trimmed(s)
    ensures Trim(s) == s
  {
  }

  /** What one requested entry contributes: an onion trimmed, a blank one nothing. */
  function Cleaned(e: RelayEntry): seq<RelayEntry> {
    match e
    case NightDrop => [NightDrop]
    case Onion(addr) => if Trim(addr) == "" then [] else [Onion(Trim(addr))]
  }

  function CleanedAll(list: seq<RelayEntry>): seq<RelayEntry> {
    if list == [] then [] else CleanedAll(list[..|list| - 1]) + Cleaned(list[|list| - 1])
  }

  /** The list as stored, and what the cap cut off it. */
  function Normalized(list: seq<RelayEntry>): (seq<RelayEntry>, seq<RelayEntry>) {
    var clean := Dedup(CleanedAll(list));
    if |clean| <= MAX_RELAYS then (clean, []) else (clean[..MAX_RELAYS], clean[MAX_RELAYS..])
  }

  predicate NormalEntry(e: RelayEntry) {
    e.Onion? ==> e.addr != "" && Trimmed(e.addr)
  }

  /** What a stored list always looks like. */
  predicate NormalList(list: seq<RelayEntry>) {
    |list| <= MAX_RELAYS && Distinct(list) && forall e :: e in list ==> NormalEntry(e)
  }

  lemma {:induction false} CleanedAreNormal(list: seq<RelayEntry>)
    ensures forall e :: e in CleanedAll(list) ==> NormalEntry(e)
    ensures forall e :: e in list && e.NightDrop? ==> e in CleanedAll(list)
    ensures forall e :: e in list && e.Onion? && Trim(e.addr) != "" ==> Onion(Trim(e.addr)) in CleanedAll(list)
  {
    if list != [] {
      var last := list[|list| - 1];
      CleanedAreNormal(list[..|list| - 1]);
      if last.Onion? {
        TrimIsTrimmed(last.addr);
      }
    }
  }

  /** Every entry that was asked for is kept or cut, never dropped, and no entry twice. */
  lemma NormalizedSplits(list: seq<RelayEntry>)
    ensures var (kept, overflow) := Normalized(list);
      && NormalList(kept)
      && Distinct(kept + overflow)
      && (overflow != [] ==> |kept| == MAX_RELAYS)
      && (forall e :: e in kept + overflow <==> e in CleanedAll(list))
  {
    var (kept, overflow) := Normalized(list);
    CleanedAreNormal(list);
    DedupKeepsElements(CleanedAll(list));
    assert kept + overflow == Dedup(CleanedAll(list));
    assert forall e :: e in kept ==> e in kept + overflow;
  }

  predicate AllBlank(s: string) {
    forall c :: c in s ==> IsWhitespace(c)
  }

  lemma {:induction false} TrimStartTakes(s: string) returns (blank: string)
    ensures s == blank + TrimStart(s) && AllBlank(blank)
  {
    if s != [] && IsWhitespace(s[0]) {
      var rest := TrimStartTakes(s[1..]);
      blank := [s[0]] + rest;
      assert s == [s[0]] + s[1..];
    } else {
      blank := "";
    }
  }

  lemma {:induction false} TrimEndTakes(s: string) returns (blank: string)
    ensures s == TrimEnd(s) + blank && AllBlank(blank)
  {
    if s != [] && IsWhitespace(s[|s| - 1]) {
      var rest := TrimEndTakes(s[..|s| - 1]);
      blank := rest + [s[|s| - 1]];
      assert s == s[..|s| - 1] + [s[|s| - 1]];
    } else {
      blank := "";
    }
  }

  /** Trimming takes white space off both ends, all of it, and nothing else. */
  lemma TrimTakesBlanks(s: string) returns (before: string, after: string)
    ensures s == before + Trim(s) + after && AllBlank(before) && AllBlank(after) && Trimmed(Trim(s))
  {
    before := TrimStartTakes(s);
    after := TrimEndTakes(TrimStart(s));
    TrimIsTrimmed(s);
    assert before + (Trim(s) + after) == before + Trim(s) + after;
  }

  /** An entry as it is stored: an onion without white space around it. */
  function Stored(e: RelayEntry): RelayEntry {
    match e
    case NightDrop => NightDrop
    case Onion(addr) => Onion(Trim(addr))
  }

  /** `places` are where something stands in `s` for the first time. */
  ghost predicate AreFirsts<T>(places: seq<nat>, s: seq<T>) {
    && (forall k :: k in places ==> k < |s|)
    && forall i :: 0 <= i < |s| ==> (i in places <==> s[i] !in s[..i])
  }

  lemma FirstsMore<T>(places: seq<nat>, front: seq<T>, last: T)
    requires AreFirsts(places, front)
    ensures last in front ==> AreFirsts(places, front + [last])
    ensures last !in front ==> AreFirsts(places + [|front|], front + [last])
  {
    var s := front + [last];
    forall i | 0 <= i < |front| ensures s[..i] == front[..i] && s[i] == front[i] {
    }
    assert s[..|front|] == front;
  }

  lemma {:induction false} DedupStands<T>(s: seq<T>) returns (places: seq<nat>)
    ensures StandsAt(Dedup(s), places, s) && AreFirsts(places, s)
  {
    places := [];
    if s != [] {
      var n := |s| - 1;
      var front, last := s[..n], s[n];
      places := DedupStands(front);
      DedupKeepsElements(front);
      StandsInMore(Dedup(front), places, front, last);
      FirstsMore(places, front, last);
      assert s == front + [last];
      if last !in front {
        places := places + [n];
      }
    }
  }

  lemma CleanedIsStored(e: RelayEntry)
    ensures Cleaned(e) == if Stored(e) == Onion("") then [] else [Stored(e)]
  {
  }

  /** `clean` is what `list` asks for, stored, blanks left out, in order: entry `k` of it comes from `sources[k]`. */
  ghost predicate ComesFrom(clean: seq<RelayEntry>, sources: seq<nat>, list: seq<RelayEntry>) {
    && |clean| == |sources|
    && (forall k :: 0 <= k < |sources| ==> sources[k] < |list| && clean[k] == Stored(list[sources[k]]))
    && (forall j, k :: 0 <= j < k < |sources| ==> sources[j] < sources[k])
    && (forall i :: 0 <= i < |list| ==> (i in sources <==> Stored(list[i]) != Onion("")))
  }

  lemma ComesFromMore(clean: seq<RelayEntry>, sources: seq<nat>, front: seq<RelayEntry>, last: RelayEntry)
    requires ComesFrom(clean, sources, front)
    ensures Stored(last) == Onion("") ==> ComesFrom(clean, sources, front + [last])
    ensures Stored(last) != Onion("") ==> ComesFrom(clean + [Stored(last)], sources + [|front|], front + [last])
  {
    forall k | k in sources ensures k < |front| {
      var j :| 0 <= j < |sources| && sources[j] == k;
    }
  }

  lemma {:induction false} CleanedStands(list: seq<RelayEntry>) returns (sources: seq<nat>)
    ensures ComesFrom(CleanedAll(list), sources, list)
  {
    sources := [];
    if list != [] {
      var n := |list| - 1;
      sources := CleanedStands(list[..n]);
      CleanedIsStored(list[n]);
      ComesFromMore(CleanedAll(list[..n]), sources, list[..n], list[n]);
      assert list == list[..n] + [list[n]];
      if Stored(list[n]) != Onion("") {
        sources := sources + [n];
      }
    }
  }

  /**
   * Which entries are kept, and in what order: of those asked for that are not blank, as stored, the first of each; the
   * first four of them in the list, the others cut.
   */
  lemma NormalizedInOrder(list: seq<RelayEntry>) returns (clean: seq<RelayEntry>, sources: seq<nat>, firsts: seq<nat>)
    ensures ComesFrom(clean, sources, list) && AreFirsts(firsts, clean)
    ensures var (kept, overflow) := Normalized(list);
      StandsAt(kept + overflow, firsts, clean) && |kept| == if |firsts| < 4 then |firsts| else 4
  {
    clean := CleanedAll(list);
    sources := CleanedStands(list);
    firsts := DedupStands(clean);
    var (kept, overflow) := Normalized(list);
    assert kept + overflow == Dedup(clean);
  }

  /** Normalizing a stored list again changes nothing. */
  lemma NormalizedIsStable(list: seq<RelayEntry>)
    requires NormalList(list)
    ensures Normalized(list) == (list, [])
  {
    CleanedOfNormal(list);
    DedupOfDistinct(list);
  }

  lemma {:induction false} CleanedOfNormal(list: seq<RelayEntry>)
    requires forall e :: e in list ==> NormalEntry(e)
    ensures CleanedAll(list) == list
  {
    if list != [] {
      var front, last := list[..|list| - 1], list[|list| - 1];
      CleanedOfNormal(front);
      assert last in list;
      if last.Onion? {
        TrimOfTrimmed(last.addr);
      }
      assert list == front + [last];
    }
  }

  lemma CleanedStep(list: seq<RelayEntry>, i: nat)
    requires i < |list|
    ensures CleanedAll(list[..i + 1]) == CleanedAll(list[..i]) + Cleaned(list[i])
  {
    assert list[..i + 1][..i] == list[..i];
  }

  lemma DedupStep<T>(s: seq<T>, x: T)
    ensures Dedup(s + [x]) == if x in Dedup(s) then Dedup(s) else Dedup(s) + [x]
  {
    assert (s + [x])[..|s|] == s;
  }

  /** Keep one entry, unless it is there already: in the list while there is room, past the cap after. */
  method Keep(kept: seq<RelayEntry>, overflow: seq<RelayEntry>, cleaned: seq<RelayEntry>, ghost before: seq<RelayEntry>)
    returns (kept': seq<RelayEntry>, overflow': seq<RelayEntry>)
    requires |cleaned| <= 1 && kept + overflow == Dedup(before)
    requires |kept| <= MAX_RELAYS && (overflow != [] ==> |kept| == MAX_RELAYS)
    ensures kept' + overflow' == Dedup(before + cleaned)
    ensures |kept'| <= MAX_RELAYS && (overflow' != [] ==> |kept'| == MAX_RELAYS)
  {
    kept', overflow' := kept, overflow;
    if cleaned == [] {
      assert before + cleaned == before;
      return;
    }
    var e := cleaned[0];
    assert cleaned == [e];
    DedupStep(before, e);
    if e in kept || e in overflow {
      return;
    }
    if |kept| < MAX_RELAYS {
      kept' := kept + [e];
    } else {
      overflow' := overflow + [e];
    }
  }

  method NormalizeRelays(list: seq<RelayEntry>) returns (kept: seq<RelayEntry>, overflow: seq<RelayEntry>)
    ensures (kept, overflow) == Normalized(list)
  {
    kept, overflow := [], [];
    ghost var clean: seq<RelayEntry> := [];
    for i := 0 to |list|
      invariant clean == CleanedAll(list[..i])
      invariant kept + overflow == Dedup(clean)
      invariant |kept| <= MAX_RELAYS && (overflow != [] ==> |kept| == MAX_RELAYS)
    {
      CleanedStep(list, i);
      kept, overflow := Keep(kept, overflow, Cleaned(list[i]), clean);
      clean := clean + Cleaned(list[i]);
    }
    assert list[..|list|] == list;
    if overflow == [] {
      assert Dedup(clean) == kept;
    } else {
      assert Dedup(clean)[..MAX_RELAYS] == kept && Dedup(clean)[MAX_RELAYS..] == overflow;
    }
  }

  // ---------------------------------------------------------------- editing the list

  datatype Book = Book(list: seq<RelayEntry>, draining: seq<Draining>)

  function Without(draining: seq<Draining>, e: RelayEntry): seq<Draining> {
    if draining == [] then []
    else
      var front := Without(draining[..|draining| - 1], e);
      if draining[|draining| - 1].0 == e then front else front + [draining[|draining| - 1]]
  }

  /** Each entry of `gone` drained until `until`, replacing any earlier deadline of its own. */
  function Retire(draining: seq<Draining>, gone: seq<RelayEntry>, until: nat): seq<Draining> {
    if gone == [] then draining
    else Without(Retire(draining, gone[..|gone| - 1], until), gone[|gone| - 1]) + [(gone[|gone| - 1], until)]
  }

  /** Those still due at `now` and not back in the list. */
  function StillDraining(draining: seq<Draining>, list: seq<RelayEntry>, now: nat): seq<Draining> {
    if draining == [] then []
    else
      var front, d := StillDraining(draining[..|draining| - 1], list, now), draining[|draining| - 1];
      if d.0 !in list && d.1 > now then front + [d] else front
  }

  function Leaving(old_: seq<RelayEntry>, list: seq<RelayEntry>): seq<RelayEntry> {
    if old_ == [] then []
    else
      var front, e := Leaving(old_[..|old_| - 1], list), old_[|old_| - 1];
      if e in list then front else front + [e]
  }

  /** Put a normalized list in place: what leaves, or did not fit, drains from `now`. */
  function Replace(book: Book, list: seq<RelayEntry>, overflow: seq<RelayEntry>, now: nat): Book {
    var gone := Leaving(book.list, list) + overflow;
    Book(list, StillDraining(Retire(book.draining, gone, now + RELAY_TTL), list, now))
  }

  function SetList(book: Book, request: seq<RelayEntry>, now: nat): Book {
    var (list, overflow) := Normalized(request);
    Replace(book, list, overflow, now)
  }

  function Entries(draining: seq<Draining>): seq<RelayEntry> {
    seq(|draining|, i requires 0 <= i < |draining| => draining[i].0)
  }

  /** The relay set a list stands for. */
  function SetOf(entries: seq<RelayEntry>): RelaySet {
    if entries == [] then RelaySet(false, [])
    else
      var front := SetOf(entries[..|entries| - 1]);
      match entries[|entries| - 1]
      case NightDrop => front.(nightdrop := true)
      case Onion(addr) => if addr in front.relays then front else front.(relays := front.relays + [addr])
  }

  function PolledSet(book: Book, now: nat): RelaySet {
    SetOf(book.list + Entries(StillDraining(book.draining, [], now)))
  }

  predicate Polls(polled: RelaySet, e: RelayEntry) {
    match e
    case NightDrop => polled.nightdrop
    case Onion(addr) => addr in polled.relays
  }

  lemma {:induction false} SetOfPolls(entries: seq<RelayEntry>, e: RelayEntry)
    ensures Polls(SetOf(entries), e) <==> e in entries
    ensures Distinct(SetOf(entries).relays)
  {
    if entries != [] {
      SetOfPolls(entries[..|entries| - 1], e);
      assert entries == entries[..|entries| - 1] + [entries[|entries| - 1]];
    }
  }

  /** No relay drains twice. */
  predicate Once(draining: seq<Draining>) {
    forall i, j :: 0 <= i < j < |draining| ==> draining[i].0 != draining[j].0
  }

  // What the three list operations do to one draining entry.

  lemma {:induction false} WithoutKeeps(draining: seq<Draining>, e: RelayEntry)
    ensures forall d :: d in Without(draining, e) <==> d in draining && d.0 != e
    ensures Once(draining) ==> Once(Without(draining, e))
  {
    if draining != [] {
      WithoutKeeps(draining[..|draining| - 1], e);
      assert draining == draining[..|draining| - 1] + [draining[|draining| - 1]];
    }
  }

  lemma {:induction false} RetireKeeps(draining: seq<Draining>, gone: seq<RelayEntry>, until: nat)
    ensures forall d ::
              d in Retire(draining, gone, until)
              <==> (d in draining && d.0 !in gone) || (d.0 in gone && d.1 == until)
    ensures Once(draining) ==> Once(Retire(draining, gone, until))
  {
    if gone != [] {
      var front, last := gone[..|gone| - 1], gone[|gone| - 1];
      RetireKeeps(draining, front, until);
      WithoutKeeps(Retire(draining, front, until), last);
      assert gone == front + [last];
      assert (last, until) in Retire(draining, gone, until);
    }
  }

  lemma {:induction false} StillDrainingKeeps(draining: seq<Draining>, list: seq<RelayEntry>, now: nat)
    ensures forall d :: d in StillDraining(draining, list, now) <==> d in draining && d.0 !in list && d.1 > now
    ensures Once(draining) ==> Once(StillDraining(draining, list, now))
  {
    if draining != [] {
      StillDrainingKeeps(draining[..|draining| - 1], list, now);
      assert draining == draining[..|draining| - 1] + [draining[|draining| - 1]];
    }
  }

  lemma {:induction false} LeavingKeeps(old_: seq<RelayEntry>, list: seq<RelayEntry>)
    ensures forall e :: e in Leaving(old_, list) <==> e in old_ && e !in list
  {
    if old_ != [] {
      LeavingKeeps(old_[..|old_| - 1], list);
      assert old_ == old_[..|old_| - 1] + [old_[|old_| - 1]];
    }
  }

  /** What drains of relays not in `gone`, in order. */
  function WithoutAll(draining: seq<Draining>, gone: seq<RelayEntry>): seq<Draining> {
    if draining == [] then []
    else
      var front, d := WithoutAll(draining[..|draining| - 1], gone), draining[|draining| - 1];
      if d.0 in gone then front else front + [d]
  }

  function Until(gone: seq<RelayEntry>, until: nat): seq<Draining> {
    seq(|gone|, i requires 0 <= i < |gone| => (gone[i], until))
  }

  lemma {:induction false} WithoutOneMore(draining: seq<Draining>, gone: seq<RelayEntry>, e: RelayEntry)
    ensures Without(WithoutAll(draining, gone), e) == WithoutAll(draining, gone + [e])
  {
    if draining != [] {
      var front, d := draining[..|draining| - 1], draining[|draining| - 1];
      WithoutOneMore(front, gone, e);
      assert (WithoutAll(front, gone) + [d])[..|WithoutAll(front, gone)|] == WithoutAll(front, gone);
    }
  }

  lemma {:induction false} WithoutSplits(a: seq<Draining>, b: seq<Draining>, e: RelayEntry)
    ensures Without(a + b, e) == Without(a, e) + Without(b, e)
  {
    if b == [] {
      assert a + b == a;
    } else {
      WithoutSplits(a, b[..|b| - 1], e);
      assert (a + b)[..|a + b| - 1] == a + b[..|b| - 1];
    }
  }

  function Omit(entries: seq<RelayEntry>, e: RelayEntry): seq<RelayEntry> {
    if entries == [] then []
    else
      var front, last := Omit(entries[..|entries| - 1], e), entries[|entries| - 1];
      if last == e then front else front + [last]
  }

  /** Each entry once, where it stands last. */
  function Lasts(gone: seq<RelayEntry>): seq<RelayEntry> {
    if gone == [] then []
    else Omit(Lasts(gone[..|gone| - 1]), gone[|gone| - 1]) + [gone[|gone| - 1]]
  }

  lemma {:induction false} OmitKeeps(entries: seq<RelayEntry>, e: RelayEntry)
    ensures forall x :: x in Omit(entries, e) <==> x in entries && x != e
  {
    if entries != [] {
      OmitKeeps(entries[..|entries| - 1], e);
      LastIn(entries);
    }
  }

  lemma {:induction false} LastsKeep(gone: seq<RelayEntry>)
    ensures forall x :: x in Lasts(gone) <==> x in gone
  {
    if gone != [] {
      LastsKeep(gone[..|gone| - 1]);
      OmitKeeps(Lasts(gone[..|gone| - 1]), gone[|gone| - 1]);
      LastIn(gone);
    }
  }

  lemma {:induction false} WithoutOfUntil(gone: seq<RelayEntry>, e: RelayEntry, until: nat)
    ensures Without(Until(gone, until), e) == Until(Omit(gone, e), until)
  {
    if gone != [] {
      var n := |gone| - 1;
      WithoutOfUntil(gone[..n], e, until);
      assert Until(gone, until)[..n] == Until(gone[..n], until);
      assert Until(Omit(gone[..n], e) + [gone[n]], until) == Until(Omit(gone[..n], e), until) + [(gone[n], until)];
    }
  }

  lemma {:induction false} WithoutNone(draining: seq<Draining>)
    ensures WithoutAll(draining, []) == draining
  {
    if draining != [] {
      WithoutNone(draining[..|draining| - 1]);
      assert draining == draining[..|draining| - 1] + [draining[|draining| - 1]];
    }
  }

  /** What drains already stands before what is retired now, and this in the order it is retired in. */
  lemma {:induction false} RetireInOrder(draining: seq<Draining>, gone: seq<RelayEntry>, until: nat)
    ensures Retire(draining, gone, until) == WithoutAll(draining, gone) + Until(Lasts(gone), until)
  {
    if gone == [] {
      WithoutNone(draining);
    } else {
      var n := |gone| - 1;
      var front, last := gone[..n], gone[n];
      RetireInOrder(draining, front, until);
      RetireOneMore(draining, front, Lasts(front), last, until);
      assert gone == front + [last];
    }
  }

  lemma RetireOneMore(draining: seq<Draining>, front: seq<RelayEntry>, lasts: seq<RelayEntry>, last: RelayEntry,
                      until: nat)
    ensures Without(WithoutAll(draining, front) + Until(lasts, until), last) + [(last, until)]
         == WithoutAll(draining, front + [last]) + Until(Omit(lasts, last) + [last], until)
  {
    WithoutSplits(WithoutAll(draining, front), Until(lasts, until), last);
    WithoutOfUntil(lasts, last, until);
    WithoutOneMore(draining, front, last);
    assert Until(Omit(lasts, last) + [last], until) == Until(Omit(lasts, last), until) + [(last, until)];
  }

  lemma {:induction false} StillOfMore(draining: seq<Draining>, more: seq<Draining>, list: seq<RelayEntry>, now: nat)
    requires forall d :: d in more ==> d.0 !in list && d.1 > now
    ensures StillDraining(draining + more, list, now) == StillDraining(draining, list, now) + more
  {
    if more == [] {
      assert draining + more == draining;
    } else {
      var n := |more| - 1;
      StillOfMore(draining, more[..n], list, now);
      assert (draining + more)[..|draining + more| - 1] == draining + more[..n];
      assert more == more[..n] + [more[n]];
    }
  }

  /**
   * The tail after an edit: what drained and is neither dropped again, listed nor over, in its order; then what the
   * list drops and then what did not fit, each once and for 24 h.
   */
  lemma TailInOrder(book: Book, request: seq<RelayEntry>, now: nat)
    ensures var (list, overflow) := Normalized(request);
      var gone := Leaving(book.list, list) + overflow;
      SetList(book, request, now).draining
      == StillDraining(WithoutAll(book.draining, gone), list, now) + Until(Lasts(gone), now + RELAY_TTL)
  {
    var (list, overflow) := Normalized(request);
    var gone := Leaving(book.list, list) + overflow;
    GoneIsNotListed(book, request);
    LastsKeep(gone);
    var more := Until(Lasts(gone), now + RELAY_TTL);
    forall d | d in more ensures d.0 !in list && d.1 > now {
      var i :| 0 <= i < |more| && more[i] == d;
      assert Lasts(gone)[i] in Lasts(gone);
    }
    RetireInOrder(book.draining, gone, now + RELAY_TTL);
    StillOfMore(WithoutAll(book.draining, gone), more, list, now);
  }

  lemma GoneIsNotListed(book: Book, request: seq<RelayEntry>)
    ensures var (list, overflow) := Normalized(request);
      forall e :: e in Leaving(book.list, list) + overflow ==> e !in list
  {
    var (list, overflow) := Normalized(request);
    NormalizedSplits(request);
    LeavingKeeps(book.list, list);
    forall i, j | 0 <= i < |list| && 0 <= j < |overflow| ensures list[i] != overflow[j] {
      assert (list + overflow)[i] == list[i] && (list + overflow)[|list| + j] == overflow[j];
    }
  }

  /** What every edit keeps: a normalized list, disjoint from a tail that names no relay twice. */
  predicate Valid(book: Book) {
    && NormalList(book.list)
    && Once(book.draining)
    && forall d :: d in book.draining ==> d.0 !in book.list
  }

  lemma SetListKeepsValid(book: Book, request: seq<RelayEntry>, now: nat)
    requires Valid(book)
    ensures Valid(SetList(book, request, now))
  {
    var (list, overflow) := Normalized(request);
    var gone := Leaving(book.list, list) + overflow;
    NormalizedSplits(request);
    RetireKeeps(book.draining, gone, now + RELAY_TTL);
    StillDrainingKeeps(Retire(book.draining, gone, now + RELAY_TTL), list, now);
  }

  /** `e` is polled until `deadline`: listed, or draining at least that long. */
  ghost predicate Covered(book: Book, e: RelayEntry, deadline: nat) {
    e in book.list || exists until :: until >= deadline && (e, until) in book.draining
  }

  lemma CoveredIsPolled(book: Book, e: RelayEntry, deadline: nat, now: nat)
    requires Covered(book, e, deadline) && now < deadline
    ensures Polls(PolledSet(book, now), e)
  {
    var tail := StillDraining(book.draining, [], now);
    StillDrainingKeeps(book.draining, [], now);
    SetOfPolls(book.list + Entries(tail), e);
    if e !in book.list {
      var until :| until >= deadline && (e, until) in book.draining;
      var i :| 0 <= i < |tail| && tail[i] == (e, until);
      assert Entries(tail)[i] == e;
    }
  }

  lemma ReplaceKeepsCovered(book: Book, list: seq<RelayEntry>, overflow: seq<RelayEntry>, now: nat, e: RelayEntry,
                            deadline: nat)
    requires Covered(book, e, deadline) && now < deadline <= now + RELAY_TTL
    ensures Covered(Replace(book, list, overflow, now), e, deadline)
  {
    var gone := Leaving(book.list, list) + overflow;
    var until := now + RELAY_TTL;
    LeavingKeeps(book.list, list);
    RetireKeeps(book.draining, gone, until);
    StillDrainingKeeps(Retire(book.draining, gone, until), list, now);
    if e !in list {
      if e in gone {
        assert (e, until) in Replace(book, list, overflow, now).draining;
      } else {
        var u :| u >= deadline && (e, u) in book.draining;
        assert (e, u) in Replace(book, list, overflow, now).draining;
      }
    }
  }

  // ---------------------------------------------------------------- whole runs of edits

  datatype Edit = Edit(request: seq<RelayEntry>, at: nat)

  function Run(book: Book, edits: seq<Edit>): Book {
    if edits == [] then book
    else
      var last := edits[|edits| - 1];
      SetList(Run(book, edits[..|edits| - 1]), last.request, last.at)
  }

  lemma {:induction false} RunKeepsValid(book: Book, edits: seq<Edit>)
    requires Valid(book)
    ensures Valid(Run(book, edits))
  {
    if edits != [] {
      RunKeepsValid(book, edits[..|edits| - 1]);
      SetListKeepsValid(Run(book, edits[..|edits| - 1]), edits[|edits| - 1].request, edits[|edits| - 1].at);
    }
  }

  lemma {:induction false} RunKeepsCovered(book: Book, edits: seq<Edit>, e: RelayEntry, t: nat, now: nat)
    requires e in book.list
    requires forall i :: 0 <= i < |edits| ==> t <= edits[i].at <= now
    requires t <= now < t + RELAY_TTL
    ensures Covered(Run(book, edits), e, t + RELAY_TTL)
  {
    if edits != [] {
      var last := edits[|edits| - 1];
      RunKeepsCovered(book, edits[..|edits| - 1], e, t, now);
      var (list, overflow) := Normalized(last.request);
      ReplaceKeepsCovered(Run(book, edits[..|edits| - 1]), list, overflow, last.at, e, t + RELAY_TTL);
    }
  }

  /** A relay listed at time `t` is in the polled set at every `now` of the next 24 h, whatever edits came between. */
  lemma StaysInPolledSet(book: Book, edits: seq<Edit>, e: RelayEntry, t: nat, now: nat)
    requires e in book.list
    requires forall i :: 0 <= i < |edits| ==> t <= edits[i].at <= now
    requires t <= now < t + RELAY_TTL
    ensures Polls(PolledSet(Run(book, edits), now), e)
  {
    RunKeepsCovered(book, edits, e, t, now);
    CoveredIsPolled(Run(book, edits), e, t + RELAY_TTL, now);
  }

  /** And the tail is not kept longer than that: nothing is in the polled set that is neither listed nor due. */
  lemma PolledIsListedOrDue(book: Book, e: RelayEntry, now: nat)
    requires Polls(PolledSet(book, now), e)
    ensures e in book.list || exists until :: until > now && (e, until) in book.draining
  {
    var tail := StillDraining(book.draining, [], now);
    StillDrainingKeeps(book.draining, [], now);
    SetOfPolls(book.list + Entries(tail), e);
    if e !in book.list {
      var i :| 0 <= i < |tail| && Entries(tail)[i] == e;
      assert tail[i] in book.draining && tail[i] == (e, tail[i].1);
    }
  }

  /** `e` is out of the list, and drains no longer than `deadline`. */
  predicate DueBy(book: Book, e: RelayEntry, deadline: nat) {
    e !in book.list && forall d :: d in book.draining && d.0 == e ==> d.1 <= deadline
  }

  lemma DroppedIsDue(book: Book, request: seq<RelayEntry>, e: RelayEntry, t: nat)
    requires e !in Normalized(request).0 && (e in book.list || e in Normalized(request).1)
    ensures DueBy(SetList(book, request, t), e, t + RELAY_TTL)
  {
    var (list, overflow) := Normalized(request);
    var gone := Leaving(book.list, list) + overflow;
    LeavingKeeps(book.list, list);
    RetireKeeps(book.draining, gone, t + RELAY_TTL);
    StillDrainingKeeps(Retire(book.draining, gone, t + RELAY_TTL), list, t);
    assert e in gone;
  }

  lemma UnnamedStaysDue(book: Book, request: seq<RelayEntry>, now: nat, e: RelayEntry, deadline: nat)
    requires DueBy(book, e, deadline) && e !in CleanedAll(request)
    ensures DueBy(SetList(book, request, now), e, deadline)
  {
    var (list, overflow) := Normalized(request);
    var gone := Leaving(book.list, list) + overflow;
    NormalizedSplits(request);
    LeavingKeeps(book.list, list);
    RetireKeeps(book.draining, gone, now + RELAY_TTL);
    StillDrainingKeeps(Retire(book.draining, gone, now + RELAY_TTL), list, now);
    assert e !in list + overflow;
    assert e !in gone;
  }

  lemma {:induction false} RunStaysDue(book: Book, edits: seq<Edit>, e: RelayEntry, deadline: nat)
    requires DueBy(book, e, deadline) && forall i :: 0 <= i < |edits| ==> e !in CleanedAll(edits[i].request)
    ensures DueBy(Run(book, edits), e, deadline)
  {
    if edits != [] {
      var last := edits[|edits| - 1];
      RunStaysDue(book, edits[..|edits| - 1], e, deadline);
      UnnamedStaysDue(Run(book, edits[..|edits| - 1]), last.request, last.at, e, deadline);
    }
  }

  /** A relay dropped at time `t` and not asked for again is out of the polled set once 24 h have passed. */
  lemma {:induction false} TailEnds(book: Book, request: seq<RelayEntry>, edits: seq<Edit>, e: RelayEntry, t: nat,
                                    now: nat)
    requires e !in Normalized(request).0 && (e in book.list || e in Normalized(request).1)
    requires forall i :: 0 <= i < |edits| ==> e !in CleanedAll(edits[i].request)
    requires now >= t + RELAY_TTL
    ensures !Polls(PolledSet(Run(SetList(book, request, t), edits), now), e)
  {
    var deadline := t + RELAY_TTL;
    DroppedIsDue(book, request, e, t);
    RunStaysDue(SetList(book, request, t), edits, e, deadline);
    DueIsNotPolled(Run(SetList(book, request, t), edits), e, deadline, now);
  }

  lemma DueIsNotPolled(book: Book, e: RelayEntry, deadline: nat, now: nat)
    requires DueBy(book, e, deadline) && now >= deadline
    ensures !Polls(PolledSet(book, now), e)
  {
    var tail := StillDraining(book.draining, [], now);
    StillDrainingKeeps(book.draining, [], now);
    SetOfPolls(book.list + Entries(tail), e);
    forall i | 0 <= i < |tail| ensures Entries(tail)[i] != e {
      assert tail[i] in tail;
    }
  }

  // ---------------------------------------------------------------- the fields and the edit in place

  class Relays {
    var list: seq<RelayEntry>
    var draining: seq<Draining>

    ghost function View(): Book
      reads this
    {
      Book(list, draining)
    }

    /** A new identity's list: nothing was ever queued for it, so nothing drains. */
    constructor (request: seq<RelayEntry>)
      ensures list == Normalized(request).0 && draining == [] && Valid(View())
    {
      NormalizedSplits(request);
      var kept, _ := NormalizeRelays(request);
      list, draining := kept, [];
    }

    method SetRelayListAt(request: seq<RelayEntry>, now: nat)
      requires Valid(View())
      modifies this
      ensures View() == SetList(old(View()), request, now) && Valid(View())
    {
      SetListKeepsValid(View(), request, now);
      var kept, overflow := NormalizeRelays(request);
      ReplaceList(kept, overflow, now);
    }

    method ReplaceList(kept: seq<RelayEntry>, overflow: seq<RelayEntry>, now: nat)
      modifies this
      ensures View() == Replace(old(View()), kept, overflow, now)
    {
      var gone := [];
      for i := 0 to |list|
        invariant gone == Leaving(list[..i], kept)
      {
        assert list[..i + 1][..i] == list[..i];
        if list[i] !in kept {
          gone := gone + [list[i]];
        }
      }
      assert list[..|list|] == list;
      gone := gone + overflow;
      RetireAll(gone, now + RELAY_TTL);
      draining := StillDraining(draining, kept, now);
      list := kept;
    }

    method RetireAll(gone: seq<RelayEntry>, until: nat)
      modifies this`draining
      ensures draining == Retire(old(draining), gone, until)
    {
      for i := 0 to |gone|
        invariant draining == Retire(old(draining), gone[..i], until)
      {
        assert gone[..i + 1][..i] == gone[..i];
        draining := Without(draining, gone[i]) + [(gone[i], until)];
      }
      assert gone[..|gone|] == gone;
    }
  }
}
