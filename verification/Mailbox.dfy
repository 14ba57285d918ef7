/** Taking mail from a relay, within what one response may carry. */
module Mailbox {
  import opened Wrappers
  import opened RelayList
  import opened Bytes

  type Blob = Bytes
  type Boxes = map<string, seq<Blob>>

  const TAKE_BUDGET_BYTES: nat := 32 * 1024 * 1024
  const MAX_TAKE_MANY: nat := 64

  function Queue(boxes: Boxes, handle: string): seq<Blob> {
    if handle in boxes then boxes[handle] else []
  }

  function Size(queue: seq<Blob>): nat {
    if queue == [] then 0 else |queue[0]| + Size(queue[1..])
  }

  function Max(a: nat, b: nat): nat {
    if a < b then b else a
  }

  function Minus(a: nat, b: nat): nat {
    if a < b then 0 else a - b
  }

  // ---------------------------------------------------------------- one response's budget

  datatype TakeBudget = TakeBudget(room: nat, first: bool) {
    predicate Admits(len: nat) {
      first || len <= room
    }

    function After(len: nat): TakeBudget {
      TakeBudget(Minus(room, len), false)
    }

    /** How many bytes of `queue` this budget lets through. */
    function Allows(queue: seq<Blob>): nat {
      if first && queue != [] then Max(room, |queue[0]|) else room
    }
  }

  const FULL_BUDGET := TakeBudget(TAKE_BUDGET_BYTES, true)

  function Fitting(queue: seq<Blob>, b: TakeBudget): (n: nat)
    ensures n <= |queue|
  {
    if queue == [] || !b.Admits(|queue[0]|) then 0 else 1 + Fitting(queue[1..], b.After(|queue[0]|))
  }

  function Spent(queue: seq<Blob>, b: TakeBudget): TakeBudget {
    if queue == [] || !b.Admits(|queue[0]|) then b else Spent(queue[1..], b.After(|queue[0]|))
  }

  /** A queue is emptied exactly when it fits; what does not fit is left behind a blob larger than the room. */
  lemma {:induction false} FittingExact(queue: seq<Blob>, b: TakeBudget)
    ensures Fitting(queue, b) == |queue| <==> Size(queue) <= b.Allows(queue)
    ensures Fitting(queue, b) == |queue| ==>
              Spent(queue, b) == TakeBudget(Minus(b.room, Size(queue)), b.first && queue == [])
    ensures Fitting(queue, b) < |queue| ==>
              !Spent(queue, b).first && |queue[Fitting(queue, b)]| > Spent(queue, b).room
    ensures Spent(queue, b).room <= b.room && (Spent(queue, b).first ==> b.first)
  {
    if queue != [] && b.Admits(|queue[0]|) {
      FittingExact(queue[1..], b.After(|queue[0]|));
    }
  }

  /** One blob at a time from the front, as the relay does it. */
  method DrainHandleBounded(queue: seq<Blob>, budget: TakeBudget)
    returns (taken: seq<Blob>, left: seq<Blob>, b: TakeBudget)
    ensures taken == queue[..Fitting(queue, budget)] && left == queue[Fitting(queue, budget)..]
    ensures b == Spent(queue, budget)
  {
    taken, left, b := [], queue, budget;
    while left != [] && b.Admits(|left[0]|)
      invariant |taken| + |left| == |queue| && taken == queue[..|taken|] && left == queue[|taken|..]
      invariant Fitting(queue, budget) == |taken| + Fitting(left, b)
      invariant Spent(queue, budget) == Spent(left, b)
      decreases |left|
    {
      b, taken, left := b.After(|left[0]|), taken + [left[0]], left[1..];
    }
  }

  // ---------------------------------------------------------------- mail with its provenance

  /** A blob and the mailbox it came from. */
  datatype Letter = Letter(client: string, handle: string, blob: Blob)

  function Letters(client: string, handle: string, blobs: seq<Blob>): seq<Letter> {
    seq(|blobs|, i requires 0 <= i < |blobs| => Letter(client, handle, blobs[i]))
  }

  function Bodies(log: seq<Letter>): seq<Blob> {
    seq(|log|, i requires 0 <= i < |log| => log[i].blob)
  }

  /** What `log` took from one mailbox, in order. */
  function Of(log: seq<Letter>, client: string, handle: string): seq<Blob> {
    if log == [] then []
    else
      var front, last := Of(log[..|log| - 1], client, handle), log[|log| - 1];
      if last.client == client && last.handle == handle then front + [last.blob] else front
  }

  lemma {:induction false} OfSplits(a: seq<Letter>, b: seq<Letter>, client: string, handle: string)
    ensures Of(a + b, client, handle) == Of(a, client, handle) + Of(b, client, handle)
  {
    if b == [] {
      assert a + b == a;
    } else {
      OfSplits(a, b[..|b| - 1], client, handle);
      assert (a + b)[..|a + b| - 1] == a + b[..|b| - 1];
    }
  }

  lemma {:induction false} OfLetters(client: string, handle: string, blobs: seq<Blob>, c: string, h: string)
    ensures Of(Letters(client, handle, blobs), c, h) == if c == client && h == handle then blobs else []
  {
    if blobs != [] {
      var front := blobs[..|blobs| - 1];
      OfLetters(client, handle, front, c, h);
      assert Letters(client, handle, blobs)[..|blobs| - 1] == Letters(client, handle, front);
      assert front + [blobs[|blobs| - 1]] == blobs;
    }
  }

  // ---------------------------------------------------------------- drawing from several handles

  datatype Draw = Draw(boxes: Boxes, budget: TakeBudget, log: seq<Letter>)

  function DrawOne(client: string, d: Draw, handle: string): Draw {
    var queue := Queue(d.boxes, handle);
    var n := Fitting(queue, d.budget);
    Draw(if handle !in d.boxes then d.boxes
         else if n == |queue| then d.boxes - {handle}
         else d.boxes[handle := queue[n..]],
         Spent(queue, d.budget),
         d.log + Letters(client, handle, queue[..n]))
  }

  /** Draw from each handle in turn on one shared budget. */
  function DrawAll(client: string, boxes: Boxes, handles: seq<string>): Draw {
    if handles == [] then Draw(boxes, FULL_BUDGET, [])
    else DrawOne(client, DrawAll(client, boxes, handles[..|handles| - 1]), handles[|handles| - 1])
  }

  /** Each mailbox was what was taken from it, in order, and then what is left of it. */
  ghost predicate ConservedAt(client: string, before: Boxes, log: seq<Letter>, after: Boxes) {
    && (forall h :: Queue(before, h) == Of(log, client, h) + Queue(after, h))
    && (forall l :: l in log ==> l.client == client)
  }

  lemma QueueAfterDraw(client: string, d: Draw, handle: string, h: string)
    ensures var queue := Queue(d.boxes, handle);
      Queue(DrawOne(client, d, handle).boxes, h)
      == if h == handle then queue[Fitting(queue, d.budget)..] else Queue(d.boxes, h)
  {
  }

  lemma LogAfterDraw(log: seq<Letter>, client: string, handle: string, taken: seq<Blob>, h: string)
    ensures Of(log + Letters(client, handle, taken), client, h)
         == Of(log, client, h) + if h == handle then taken else []
  {
    OfSplits(log, Letters(client, handle, taken), client, h);
    OfLetters(client, handle, taken, client, h);
  }

  lemma DrawOneConserves(client: string, before: Boxes, d: Draw, handle: string)
    requires ConservedAt(client, before, d.log, d.boxes)
    ensures ConservedAt(client, before, DrawOne(client, d, handle).log, DrawOne(client, d, handle).boxes)
    ensures forall h :: h != handle ==> Queue(DrawOne(client, d, handle).boxes, h) == Queue(d.boxes, h)
  {
    var d' := DrawOne(client, d, handle);
    var queue := Queue(d.boxes, handle);
    var taken, left := queue[..Fitting(queue, d.budget)], queue[Fitting(queue, d.budget)..];
    assert queue == taken + left;
    forall h ensures Queue(before, h) == Of(d'.log, client, h) + Queue(d'.boxes, h) {
      QueueAfterDraw(client, d, handle, h);
      LogAfterDraw(d.log, client, handle, taken, h);
      assert Of(d.log, client, h) + (taken + left) == Of(d.log, client, h) + taken + left;
    }
    forall h | h != handle ensures Queue(d'.boxes, h) == Queue(d.boxes, h) {
      QueueAfterDraw(client, d, handle, h);
    }
  }

  lemma {:induction false} DrawAllConserves(client: string, boxes: Boxes, handles: seq<string>)
    ensures ConservedAt(client, boxes, DrawAll(client, boxes, handles).log, DrawAll(client, boxes, handles).boxes)
    ensures forall h :: h !in handles ==> Queue(DrawAll(client, boxes, handles).boxes, h) == Queue(boxes, h)
  {
    if handles != [] {
      var front, last := handles[..|handles| - 1], handles[|handles| - 1];
      DrawAllConserves(client, boxes, front);
      DrawOneConserves(client, boxes, DrawAll(client, boxes, front), last);
      assert handles == front + [last];
      assert forall h :: h !in handles ==> h !in front && h != last;
    }
  }

  // ---------------------------------------------------------------- when one request empties all it asks for

  /** The bytes waiting under `handles`, each handle once. */
  function Load(boxes: Boxes, handles: seq<string>): nat {
    if handles == [] then 0
    else
      var front, last := handles[..|handles| - 1], handles[|handles| - 1];
      Load(boxes, front) + if last in front then 0 else Size(Queue(boxes, last))
  }

  /** The first blob a request for `handles` meets. */
  function FirstBlob(boxes: Boxes, handles: seq<string>): Option<Blob> {
    if handles == [] then None
    else
      var front, last := FirstBlob(boxes, handles[..|handles| - 1]), Queue(boxes, handles[|handles| - 1]);
      if front.Some? then front else if last != [] then Some(last[0]) else None
  }

  /** Everything waiting fits one response: the budget, or a first blob larger than it and nothing else. */
  predicate FitsOne(boxes: Boxes, handles: seq<string>) {
    var first := FirstBlob(boxes, handles);
    Load(boxes, handles) <= Max(TAKE_BUDGET_BYTES, if first.Some? then |first.value| else 0)
  }

  predicate Emptied(boxes: Boxes, handles: seq<string>) {
    forall h :: h in handles ==> Queue(boxes, h) == []
  }

  lemma {:induction false} FirstBlobExact(boxes: Boxes, handles: seq<string>)
    ensures FirstBlob(boxes, handles).None? <==> Emptied(boxes, handles)
    ensures FirstBlob(boxes, handles).None? ==> Load(boxes, handles) == 0
    ensures FirstBlob(boxes, handles).Some? ==> |FirstBlob(boxes, handles).value| <= Load(boxes, handles)
  {
    if handles != [] {
      FirstBlobExact(boxes, handles[..|handles| - 1]);
      assert handles == handles[..|handles| - 1] + [handles[|handles| - 1]];
    }
  }

  /** A request still blocked: some queue waits behind a blob with no room for it. */
  ghost predicate Blocked(d: Draw, handles: seq<string>) {
    && !d.budget.first
    && exists h :: h in handles && Queue(d.boxes, h) != [] && |Queue(d.boxes, h)[0]| > d.budget.room
  }

  lemma BlockedStays(client: string, d: Draw, handles: seq<string>, last: string)
    requires Blocked(d, handles)
    ensures Blocked(DrawOne(client, d, last), handles + [last])
  {
    var h :| h in handles && Queue(d.boxes, h) != [] && |Queue(d.boxes, h)[0]| > d.budget.room;
    FittingExact(Queue(d.boxes, last), d.budget);
    assert h in handles + [last];
    assert Queue(DrawOne(client, d, last).boxes, h) == Queue(d.boxes, h);
  }

  /** What a draw has done so far: emptied everything and counted its bytes, or got stuck. */
  ghost predicate DrawnSoFar(boxes: Boxes, handles: seq<string>, d: Draw) {
    if FitsOne(boxes, handles) then
      && Emptied(d.boxes, handles)
      && d.budget == TakeBudget(Minus(TAKE_BUDGET_BYTES, Load(boxes, handles)), FirstBlob(boxes, handles).None?)
    else Blocked(d, handles)
  }

  lemma DrawLast(client: string, boxes: Boxes, front: seq<string>, last: string, d: Draw)
    requires FitsOne(boxes, front) && DrawnSoFar(boxes, front, d)
    requires last !in front && Queue(d.boxes, last) == Queue(boxes, last)
    ensures DrawnSoFar(boxes, front + [last], DrawOne(client, d, last))
  {
    var handles, queue, d' := front + [last], Queue(boxes, last), DrawOne(client, d, last);
    assert handles[..|front|] == front;
    FirstBlobExact(boxes, front);
    FittingExact(queue, d.budget);
    assert FitsOne(boxes, handles) <==> Size(queue) <= d.budget.Allows(queue);
    if !FitsOne(boxes, handles) {
      assert last in handles;
      assert Queue(d'.boxes, last) == queue[Fitting(queue, d.budget)..];
    }
  }

  lemma DrawStep(client: string, boxes: Boxes, front: seq<string>, last: string, d: Draw)
    requires DrawnSoFar(boxes, front, d) && (last !in front ==> Queue(d.boxes, last) == Queue(boxes, last))
    ensures DrawnSoFar(boxes, front + [last], DrawOne(client, d, last))
  {
    assert (front + [last])[..|front|] == front;
    FirstBlobExact(boxes, front);
    if !FitsOne(boxes, front) {
      BlockedStays(client, d, front, last);
    } else if last !in front {
      DrawLast(client, boxes, front, last, d);
    } else {
      FirstBlobExact(boxes, front + [last]);
    }
  }

  lemma {:induction false} DrawAllExact(client: string, boxes: Boxes, handles: seq<string>)
    ensures DrawnSoFar(boxes, handles, DrawAll(client, boxes, handles))
  {
    if handles != [] {
      var front, last := handles[..|handles| - 1], handles[|handles| - 1];
      DrawAllExact(client, boxes, front);
      DrawAllConserves(client, boxes, front);
      assert handles == front + [last];
      DrawStep(client, boxes, front, last, DrawAll(client, boxes, front));
    }
  }

  /** One request empties every handle it names exactly when what waits there fits one response. */
  lemma OneRequestEmptiesIff(client: string, boxes: Boxes, handles: seq<string>)
    ensures Emptied(DrawAll(client, boxes, handles).boxes, handles) <==> FitsOne(boxes, handles)
  {
    DrawAllExact(client, boxes, handles);
  }

  // ---------------------------------------------------------------- what one request takes when not all of it fits

  lemma SizeSplits(a: seq<Blob>, b: seq<Blob>)
    ensures Size(a + b) == Size(a) + Size(b)
  {
    if a == [] {
      assert a + b == b;
    } else {
      assert (a + b)[1..] == a[1..] + b;
      SizeSplits(a[1..], b);
    }
  }

  /** What fits is within the room, or a first blob larger than it and empty ones; the room left is less by that. */
  lemma {:induction false} SpentTells(queue: seq<Blob>, b: TakeBudget)
    ensures var taken := queue[..Fitting(queue, b)];
      && Spent(queue, b).room == Minus(b.room, Size(taken))
      && (Spent(queue, b).first <==> b.first && taken == [])
      && (Size(taken) <= b.room || (b.first && taken != [] && Size(taken) == |taken[0]|))
  {
    if queue != [] && b.Admits(|queue[0]|) {
      var rest, after := queue[1..], b.After(|queue[0]|);
      SpentTells(rest, after);
      var taken := queue[..Fitting(queue, b)];
      assert taken[1..] == rest[..Fitting(rest, after)];
    }
  }

  /** No blob waits at a handle that would still fit; what was taken fits, or is a larger blob alone. */
  ghost predicate Maximal(handles: seq<string>, d: Draw) {
    var taken := Bodies(d.log);
    && d.budget == TakeBudget(Minus(TAKE_BUDGET_BYTES, Size(taken)), taken == [])
    && (Size(taken) <= TAKE_BUDGET_BYTES || Size(taken) == |taken[0]|)
    && forall h :: h in handles && Queue(d.boxes, h) != [] ==>
         taken != [] && Size(taken) + |Queue(d.boxes, h)[0]| > TAKE_BUDGET_BYTES
  }

  lemma BodiesGrow(log: seq<Letter>, client: string, handle: string, taken: seq<Blob>)
    ensures Bodies(log + Letters(client, handle, taken)) == Bodies(log) + taken
  {
  }

  lemma MaximalStep(client: string, front: seq<string>, d: Draw, last: string)
    requires Maximal(front, d)
    ensures Maximal(front + [last], DrawOne(client, d, last))
  {
    var queue, d' := Queue(d.boxes, last), DrawOne(client, d, last);
    var taken := queue[..Fitting(queue, d.budget)];
    SpentTells(queue, d.budget);
    FittingExact(queue, d.budget);
    BodiesGrow(d.log, client, last, taken);
    SizeSplits(Bodies(d.log), taken);
    forall h | h in front + [last] && Queue(d'.boxes, h) != []
      ensures Bodies(d'.log) != [] && Size(Bodies(d'.log)) + |Queue(d'.boxes, h)[0]| > TAKE_BUDGET_BYTES
    {
      QueueAfterDraw(client, d, last, h);
    }
  }

  /**
   * A joint request takes nothing but what fits one response, and leaves nothing that would still fit: so it takes
   * something whenever something waits.
   */
  lemma {:induction false} JointTakesWhatFits(client: string, boxes: Boxes, handles: seq<string>)
    ensures Maximal(handles, DrawAll(client, boxes, handles))
  {
    if handles != [] {
      var front, last := handles[..|handles| - 1], handles[|handles| - 1];
      JointTakesWhatFits(client, boxes, front);
      assert handles == front + [last];
      MaximalStep(client, front, DrawAll(client, boxes, front), last);
    } else {
      assert Bodies([]) == [];
    }
  }

  // ---------------------------------------------------------------- one request per handle

  datatype Taken = Taken(ok: bool, log: seq<Letter>, boxes: Boxes)

  /** One take per handle, request `from + k` for handle `k`; `ok` so far means some take answered. */
  function Each(client: string, boxes: Boxes, handles: seq<string>, from: nat, up: nat -> bool): Taken {
    if handles == [] then Taken(false, [], boxes)
    else
      var n := |handles| - 1;
      var front := Each(client, boxes, handles[..n], from, up);
      if up(from + n) then
        var d := DrawOne(client, Draw(front.boxes, FULL_BUDGET, front.log), handles[n]);
        Taken(true, d.log, d.boxes)
      else front
  }

  lemma {:induction false} EachConserves(client: string, boxes: Boxes, handles: seq<string>, from: nat, up: nat -> bool)
    ensures var t := Each(client, boxes, handles, from, up);
      && ConservedAt(client, boxes, t.log, t.boxes)
      && (!t.ok ==> t.log == [] && t.boxes == boxes)
  {
    if handles != [] {
      var n := |handles| - 1;
      var front := Each(client, boxes, handles[..n], from, up);
      EachConserves(client, boxes, handles[..n], from, up);
      DrawOneConserves(client, boxes, Draw(front.boxes, FULL_BUDGET, front.log), handles[n]);
    }
  }

  lemma {:induction false} EachLeavesOthers(client: string, boxes: Boxes, handles: seq<string>, from: nat,
                                            up: nat -> bool, h: string)
    requires h !in handles
    ensures Queue(Each(client, boxes, handles, from, up).boxes, h) == Queue(boxes, h)
  {
    if handles != [] {
      var n := |handles| - 1;
      var front := Each(client, boxes, handles[..n], from, up);
      EachLeavesOthers(client, boxes, handles[..n], from, up, h);
      QueueAfterDraw(client, Draw(front.boxes, FULL_BUDGET, front.log), handles[n], h);
    }
  }

  /** How many responses it takes to carry a queue; each carries its first blob at least. */
  function Responses(queue: seq<Blob>): nat
    decreases |queue|
  {
    if queue == [] then 0 else 1 + Responses(queue[Fitting(queue, FULL_BUDGET)..])
  }

  /** One is enough exactly for what fits the budget. */
  lemma OneResponseIff(queue: seq<Blob>)
    ensures Responses(queue) <= 1 <==> Size(queue) <= FULL_BUDGET.Allows(queue)
  {
    FittingExact(queue, FULL_BUDGET);
  }

  /** How many takes of `h` are answered. */
  function AnsweredFor(handles: seq<string>, from: nat, up: nat -> bool, h: string): nat {
    if handles == [] then 0
    else
      var n := |handles| - 1;
      AnsweredFor(handles[..n], from, up, h) + if handles[n] == h && up(from + n) then 1 else 0
  }

  /** No handle needs more responses than its takes are answered. */
  predicate EachFits(boxes: Boxes, handles: seq<string>, from: nat, up: nat -> bool) {
    forall h :: h in handles ==> Responses(Queue(boxes, h)) <= AnsweredFor(handles, from, up, h)
  }

  lemma {:induction false} EachTakesOff(client: string, boxes: Boxes, handles: seq<string>, from: nat,
                                        up: nat -> bool, h: string)
    ensures Responses(Queue(Each(client, boxes, handles, from, up).boxes, h))
         == Minus(Responses(Queue(boxes, h)), AnsweredFor(handles, from, up, h))
  {
    if handles != [] {
      var n := |handles| - 1;
      var front := Each(client, boxes, handles[..n], from, up);
      EachTakesOff(client, boxes, handles[..n], from, up, h);
      QueueAfterDraw(client, Draw(front.boxes, FULL_BUDGET, front.log), handles[n], h);
    }
  }

  /** The fallback empties its handles exactly when each gets as many answers as its mail needs responses. */
  lemma EachEmptiesIff(client: string, boxes: Boxes, handles: seq<string>, from: nat, up: nat -> bool)
    ensures Emptied(Each(client, boxes, handles, from, up).boxes, handles) <==> EachFits(boxes, handles, from, up)
  {
    var after := Each(client, boxes, handles, from, up).boxes;
    forall h | h in handles
      ensures Queue(after, h) == [] <==> Responses(Queue(boxes, h)) <= AnsweredFor(handles, from, up, h)
    {
      EachTakesOff(client, boxes, handles, from, up, h);
    }
  }

  lemma {:induction false} AnsweredOnce(handles: seq<string>, from: nat, up: nat -> bool, k: nat)
    requires Distinct(handles) && k < |handles|
    ensures AnsweredFor(handles, from, up, handles[k]) == if up(from + k) then 1 else 0
    decreases |handles|
  {
    var n := |handles| - 1;
    if k < n {
      AnsweredOnce(handles[..n], from, up, k);
    } else {
      NeverAnswered(handles[..n], from, up, handles[n]);
    }
  }

  lemma {:induction false} NeverAnswered(handles: seq<string>, from: nat, up: nat -> bool, h: string)
    requires h !in handles
    ensures AnsweredFor(handles, from, up, h) == 0
  {
    if handles != [] {
      NeverAnswered(handles[..|handles| - 1], from, up, h);
    }
  }

  /** With each handle asked for once: its take is answered and its mail fits one response, or it has none. */
  lemma EachFitsOnce(boxes: Boxes, handles: seq<string>, from: nat, up: nat -> bool)
    requires Distinct(handles)
    ensures EachFits(boxes, handles, from, up) <==>
            forall k :: 0 <= k < |handles| ==>
              var queue := Queue(boxes, handles[k]);
              queue == [] || (up(from + k) && Size(queue) <= FULL_BUDGET.Allows(queue))
  {
    forall k | 0 <= k < |handles|
      ensures Responses(Queue(boxes, handles[k])) <= AnsweredFor(handles, from, up, handles[k])
         <==> var queue := Queue(boxes, handles[k]);
              queue == [] || (up(from + k) && Size(queue) <= FULL_BUDGET.Allows(queue))
    {
      AnsweredOnce(handles, from, up, k);
      OneResponseIff(Queue(boxes, handles[k]));
    }
  }

  // ---------------------------------------------------------------- take_many

  /** Whether the first request is one for all of `handles`. */
  predicate Together(handles: seq<string>) {
    1 < |handles| <= MAX_TAKE_MANY
  }

  /** What one `take_many` does; a relay that predates it refuses the joint request and is asked one by one. */
  function Take(client: string, modern: bool, boxes: Boxes, handles: seq<string>, up: nat -> bool): Taken {
    if !Together(handles) then
      var t := Each(client, boxes, handles, 0, up);
      t.(ok := t.ok || handles == [])
    else if !up(0) then Taken(false, [], boxes)
    else if modern then
      var d := DrawAll(client, boxes, handles);
      Taken(true, d.log, d.boxes)
    else Each(client, boxes, handles, 1, up)
  }

  /** Some one of `n` requests from `from` on is answered. */
  ghost predicate SomeUp(up: nat -> bool, from: nat, n: nat) {
    exists k :: from <= k < from + n && up(k)
  }

  /** A take gets through: the joint request, on an older relay one of the fallback's too; else any of those made. */
  ghost predicate GetsThrough(modern: bool, handles: seq<string>, up: nat -> bool) {
    if 2 <= |handles| <= 64 then up(0) && (modern || SomeUp(up, 1, |handles|))
    else handles == [] || SomeUp(up, 0, |handles|)
  }

  lemma {:induction false} EachOkIff(client: string, boxes: Boxes, handles: seq<string>, from: nat, up: nat -> bool)
    ensures Each(client, boxes, handles, from, up).ok <==> SomeUp(up, from, |handles|)
  {
    if handles != [] {
      var n := |handles| - 1;
      EachOkIff(client, boxes, handles[..n], from, up);
      if up(from + n) {
        assert SomeUp(up, from, |handles|);
      } else if k :| from <= k < from + n && up(k) {
        assert SomeUp(up, from, |handles|);
      }
    }
  }

  /** A take counts as answered exactly when it got through, whatever mail there was. */
  lemma TakeOkIff(client: string, modern: bool, boxes: Boxes, handles: seq<string>, up: nat -> bool)
    ensures Take(client, modern, boxes, handles, up).ok <==> GetsThrough(modern, handles, up)
  {
    EachOkIff(client, boxes, handles, 0, up);
    EachOkIff(client, boxes, handles, 1, up);
  }

  /** A take loses nothing, and one that fails removed nothing. */
  lemma TakeConserves(client: string, modern: bool, boxes: Boxes, handles: seq<string>, up: nat -> bool)
    ensures var t := Take(client, modern, boxes, handles, up);
      && ConservedAt(client, boxes, t.log, t.boxes)
      && (forall h :: h !in handles ==> Queue(t.boxes, h) == Queue(boxes, h))
      && (!t.ok ==> t.log == [] && t.boxes == boxes)
  {
    if Together(handles) && modern {
      DrawAllConserves(client, boxes, handles);
    } else {
      EachKeeps(client, boxes, handles, if Together(handles) then 1 else 0, up);
    }
  }

  lemma EachKeeps(client: string, boxes: Boxes, handles: seq<string>, from: nat, up: nat -> bool)
    ensures var t := Each(client, boxes, handles, from, up);
      && ConservedAt(client, boxes, t.log, t.boxes)
      && (forall h :: h !in handles ==> Queue(t.boxes, h) == Queue(boxes, h))
      && (!t.ok ==> t.log == [] && t.boxes == boxes)
  {
    EachConserves(client, boxes, handles, from, up);
    forall h | h !in handles ensures Queue(Each(client, boxes, handles, from, up).boxes, h) == Queue(boxes, h) {
      EachLeavesOthers(client, boxes, handles, from, up, h);
    }
  }

  /** The mail a take would find fits the responses it would get. */
  predicate TakeFits(modern: bool, boxes: Boxes, handles: seq<string>, up: nat -> bool) {
    if Together(handles) && modern then FitsOne(boxes, handles)
    else EachFits(boxes, handles, if Together(handles) then 1 else 0, up)
  }

  lemma TakeEmptiesIff(client: string, modern: bool, boxes: Boxes, handles: seq<string>, up: nat -> bool)
    requires Take(client, modern, boxes, handles, up).ok
    ensures Emptied(Take(client, modern, boxes, handles, up).boxes, handles) <==> TakeFits(modern, boxes, handles, up)
  {
    OneRequestEmptiesIff(client, boxes, handles);
    EachEmptiesIff(client, boxes, handles, 0, up);
    EachEmptiesIff(client, boxes, handles, 1, up);
  }

  /** A relay as a client sees it. */
  class Relay {
    const name: string
    const modern: bool
    var boxes: Boxes
    ghost var log: seq<Letter>

    constructor (name: string, modern: bool, boxes: Boxes)
      ensures this.name == name && this.modern == modern && this.boxes == boxes && log == []
    {
      this.name, this.modern, this.boxes, log := name, modern, boxes, [];
    }

    /** The relay's side: drain one handle on what is left of a response's budget. */
    method DrainHandle(handle: string, budget: TakeBudget) returns (taken: seq<Blob>, b: TakeBudget)
      modifies this
      ensures Draw(boxes, b, log) == DrawOne(name, Draw(old(boxes), budget, old(log)), handle)
      ensures log == old(log) + Letters(name, handle, taken)
    {
      taken, b := [], budget;
      if handle in boxes {
        var left;
        taken, left, b := DrainHandleBounded(boxes[handle], budget);
        boxes := if left == [] then boxes - {handle} else boxes[handle := left];
      }
      log := log + Letters(name, handle, taken);
    }

    /** The relay's side of a joint request. */
    method AnswerTakeMany(handles: seq<string>) returns (blobs: seq<Blob>)
      requires log == []
      modifies this
      ensures DrawAll(name, old(boxes), handles).boxes == boxes && DrawAll(name, old(boxes), handles).log == log
      ensures blobs == Bodies(log)
    {
      blobs := [];
      var budget := FULL_BUDGET;
      for i := 0 to |handles|
        invariant Draw(boxes, budget, log) == DrawAll(name, old(boxes), handles[..i])
        invariant blobs == Bodies(log)
      {
        assert handles[..i + 1][..i] == handles[..i];
        var taken;
        taken, budget := DrainHandle(handles[i], budget);
        blobs := blobs + taken;
      }
      assert handles[..|handles|] == handles;
    }

    /** The client's side: one take per handle, keeping what arrived. */
    method TakeEach(handles: seq<string>, from: nat, up: nat -> bool) returns (r: Result<seq<Blob>, ()>)
      requires log == []
      modifies this
      ensures var t := Each(name, old(boxes), handles, from, up);
        && boxes == t.boxes && log == t.log
        && r == if t.ok || handles == [] then Ok(Bodies(log)) else Err(())
      ensures r.Ok? <==> handles == [] || SomeUp(up, from, |handles|)
    {
      ghost var before := boxes;
      var out: seq<Blob> := [];
      var answered, failed := handles == [], false;
      for i := 0 to |handles|
        invariant var t := Each(name, old(boxes), handles[..i], from, up);
          && boxes == t.boxes && log == t.log && answered == (t.ok || handles == [])
        invariant out == Bodies(log)
        invariant i > 0 && !answered ==> failed
      {
        assert handles[..i + 1][..i] == handles[..i];
        if up(from + i) {
          var taken, _ := DrainHandle(handles[i], FULL_BUDGET);
          answered, out := true, out + taken;
        } else {
          failed := true;
        }
      }
      assert handles[..|handles|] == handles;
      EachOkIff(name, before, handles, from, up);
      return if !answered && failed then Err(()) else Ok(out);
    }

    /** `up(k)` is whether request `k` of this call is answered. */
    method TakeMany(handles: seq<string>, up: nat -> bool) returns (r: Result<seq<Blob>, ()>)
      modifies this
      ensures var t := Take(name, modern, old(boxes), handles, up);
        && boxes == t.boxes && log == t.log
        && r == if t.ok then Ok(Bodies(log)) else Err(())
      ensures r.Ok? <==> GetsThrough(modern, handles, up)
    {
      TakeOkIff(name, modern, boxes, handles, up);
      log := [];
      if |handles| <= 1 || |handles| > MAX_TAKE_MANY {
        r := TakeEach(handles, 0, up);
      } else if !up(0) {
        r := Err(());
      } else if !modern {
        r := TakeEach(handles, 1, up);
      } else {
        var blobs := AnswerTakeMany(handles);
        r := Ok(blobs);
      }
    }
  }
}
