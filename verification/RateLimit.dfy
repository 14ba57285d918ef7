/** The log's rate limiter: a budget of events per shape and window, with what was dropped counted. */
module RateLimit {
  datatype Window = Window(start: nat, passed: nat, dropped: nat)

  /** The summary line for a window that closed with drops. */
  datatype Report = Report(shape: string, dropped: nat, passed: nat)

  /** History: one checked event, and the window it fell in. */
  datatype Event = Event(shape: string, now: nat, start: nat, admitted: bool)

  function Since(now: nat, start: nat): nat {
    if now < start then 0 else now - start
  }

  // ---------------------------------------------------------------- counting history

  function Events(history: seq<Event>, shape: string): nat {
    if history == [] then 0
    else Events(history[..|history| - 1], shape) + if history[|history| - 1].shape == shape then 1 else 0
  }

  function Admitted(history: seq<Event>, shape: string): nat {
    if history == [] then 0
    else
      var e := history[|history| - 1];
      Admitted(history[..|history| - 1], shape) + if e.shape == shape && e.admitted then 1 else 0
  }

  function AdmittedIn(history: seq<Event>, shape: string, start: nat): nat {
    if history == [] then 0
    else
      var e := history[|history| - 1];
      AdmittedIn(history[..|history| - 1], shape,
                 start) + if e.shape == shape && e.start == start && e.admitted then 1 else 0
  }

  /** Events of `shape` admitted in the `window` that begins at `from`. */
  function AdmittedDuring(history: seq<Event>, shape: string, from: nat, window: nat): nat {
    if history == [] then 0
    else
      var e := history[|history| - 1];
      AdmittedDuring(history[..|history| - 1], shape, from, window)
      + if e.shape == shape && e.admitted && from <= e.now < from + window then 1 else 0
  }

  function Reported(reports: seq<Report>, shape: string): nat {
    if reports == [] then 0
    else
      var r := reports[|reports| - 1];
      Reported(reports[..|reports| - 1], shape) + if r.shape == shape then r.dropped else 0
  }

  lemma {:induction false} ReportedSplits(a: seq<Report>, b: seq<Report>, shape: string)
    ensures Reported(a + b, shape) == Reported(a, shape) + Reported(b, shape)
  {
    if b == [] {
      assert a + b == a;
    } else {
      ReportedSplits(a, b[..|b| - 1], shape);
      assert (a + b)[..|a + b| - 1] == a + b[..|b| - 1];
    }
  }

  // ---------------------------------------------------------------- the invariant

  function OpenDrops(shapes: map<string, Window>, shape: string): nat {
    if shape in shapes then shapes[shape].dropped else 0
  }

  /** Every event was admitted, reported as dropped, or dropped in a window still open. */
  ghost predicate AccountedFor(shapes: map<string, Window>, history: seq<Event>, reports: seq<Report>) {
    forall shape ::
      Events(history, shape) == Admitted(history, shape) + Reported(reports, shape) + OpenDrops(shapes, shape)
  }

  /** Windows of one shape do not overlap, hold their events, and admit no more than the burst. */
  ghost predicate Windowed(burst: nat, window: nat, history: seq<Event>) {
    && (forall e :: e in history ==> e.start <= e.now < e.start + window)
    && (forall e,
        f :: e in history && f in history && e.shape == f.shape && e.start < f.start ==> e.start + window <= f.start)
    && (forall shape, start :: AdmittedIn(history, shape, start) <= burst)
  }

  /** The map says what the current window of each shape has let through; a forgotten shape's windows are all over. */
  ghost predicate Current(burst: nat, window: nat, shapes: map<string, Window>, history: seq<Event>, last: nat) {
    && (forall shape :: shape in shapes ==>
          && shapes[shape].passed == AdmittedIn(history, shape, shapes[shape].start) <= burst
          && shapes[shape].start <= last)
    && (forall e :: e in history && e.shape in shapes ==>
          e.start == shapes[e.shape].start || e.start + window <= shapes[e.shape].start)
    && (forall e :: e in history && e.shape !in shapes ==> e.start + window <= last)
    && (forall e :: e in history ==> e.now <= last)
  }

  /** Only open windows are remembered. */
  predicate AllOpen(window: nat, shapes: map<string, Window>, now: nat) {
    forall shape :: shape in shapes ==> Since(now, shapes[shape].start) < window
  }

  // ---------------------------------------------------------------- one check

  function Kept(window: nat, shapes: map<string, Window>, now: nat): map<string, Window> {
    map shape | shape in shapes && Since(now, shapes[shape].start) < window :: shapes[shape]
  }

  function Entered(shapes: map<string, Window>, shape: string, now: nat): Window {
    if shape in shapes then shapes[shape] else Window(now, 0, 0)
  }

  function Counted(w: Window, burst: nat): Window {
    if w.passed < burst then w.(passed := w.passed + 1) else w.(dropped := w.dropped + 1)
  }

  lemma KeptIsCurrent(burst: nat, window: nat, shapes: map<string, Window>, history: seq<Event>, last: nat, now: nat)
    requires Current(burst, window, shapes, history, last) && last <= now
    ensures Current(burst, window, Kept(window, shapes, now), history, now)
  {
    var kept := Kept(window, shapes, now);
    forall e | e in history && e.shape !in kept ensures e.start + window <= now {
      if e.shape in shapes {
        assert Since(now, shapes[e.shape].start) >= window;
      }
    }
  }

  lemma {:induction false} NoneAdmitted(history: seq<Event>, shape: string, start: nat)
    requires forall e :: e in history && e.shape == shape ==> e.start != start
    ensures AdmittedIn(history, shape, start) == 0
  {
    if history != [] {
      var front := history[..|history| - 1];
      assert history[|history| - 1] in history;
      NoneAdmitted(front, shape, start);
    }
  }

  lemma AdmittedGrows(history: seq<Event>, e: Event)
    ensures forall shape, start ::
              AdmittedIn(history + [e], shape, start)
              == AdmittedIn(history, shape, start) + if e.shape == shape && e.start == start && e.admitted then 1 else 0
    ensures forall shape :: Events(history + [e], shape) == Events(history, shape) + if e.shape == shape then 1 else 0
    ensures forall shape ::
              Admitted(history + [e], shape)
              == Admitted(history, shape) + if e.shape == shape && e.admitted then 1 else 0
  {
    assert (history + [e])[..|history|] == history;
  }

  /** A window entered holds what the history admitted in it, and every other of its shape is over. */
  lemma EnteredWindow(burst: nat, window: nat, kept: map<string, Window>, history: seq<Event>, shape: string, now: nat)
    requires Current(burst, window, kept, history, now) && window > 0
    ensures var w := Entered(kept, shape, now);
      && w.start <= now
      && w.passed == AdmittedIn(history, shape, w.start)
      && (forall f :: f in history && f.shape == shape ==> f.start == w.start || f.start + window <= w.start)
  {
    if shape !in kept {
      NoneAdmitted(history, shape, now);
    }
  }

  lemma EventKeepsWindowed(burst: nat, window: nat, history: seq<Event>, e: Event)
    requires Windowed(burst, window, history) && e.start <= e.now < e.start + window
    requires e.admitted ==> AdmittedIn(history, e.shape, e.start) < burst
    requires forall f :: f in history && f.shape == e.shape ==> f.start == e.start || f.start + window <= e.start
    ensures Windowed(burst, window, history + [e])
  {
    AdmittedGrows(history, e);
    assert forall f :: f in history + [e] <==> f in history || f == e;
  }

  lemma EventKeepsCurrent(burst: nat, window: nat, kept: map<string, Window>, history: seq<Event>, e: Event, w: Window)
    requires Current(burst, window, kept, history, e.now) && w == Entered(kept, e.shape, e.now)
    requires e.start == w.start <= e.now && e.admitted == (w.passed < burst)
    requires w.passed == AdmittedIn(history, e.shape, w.start)
    requires w.passed <= burst
    requires forall f :: f in history && f.shape == e.shape ==> f.start == e.start || f.start + window <= e.start
    ensures Current(burst, window, kept[e.shape := Counted(w, burst)], history + [e], e.now)
  {
    AdmittedGrows(history, e);
    var shapes', history' := kept[e.shape := Counted(w, burst)], history + [e];
    forall shape | shape in shapes'
      ensures shapes'[shape].passed == AdmittedIn(history', shape, shapes'[shape].start) <= burst
      ensures shapes'[shape].start <= e.now
    {
      if shape != e.shape {
        assert shapes'[shape] == kept[shape];
      }
    }
    forall f | f in history' ensures f.now <= e.now
      ensures f.shape in shapes' ==> f.start == shapes'[f.shape].start || f.start + window <= shapes'[f.shape].start
      ensures f.shape !in shapes' ==> f.start + window <= e.now
    {
      assert f in history || f == e;
    }
  }

  lemma EventKeepsAccount(kept: map<string, Window>, history: seq<Event>, reports: seq<Report>, e: Event, w: Window,
                          burst: nat)
    requires AccountedFor(kept, history, reports) && w == Entered(kept, e.shape, e.now)
    requires e.admitted == (w.passed < burst)
    ensures AccountedFor(kept[e.shape := Counted(w, burst)], history + [e], reports)
  {
    AdmittedGrows(history, e);
    var shapes' := kept[e.shape := Counted(w, burst)];
    forall shape ensures Events(history + [e], shape)
        == Admitted(history + [e], shape) + Reported(reports, shape) + OpenDrops(shapes', shape) {
      assert Events(history, shape) == Admitted(history, shape) + Reported(reports, shape) + OpenDrops(kept, shape);
    }
  }

  // ---------------------------------------------------------------- what the windows promise together

  lemma {:induction false} TwoWindowsCover(history: seq<Event>, shape: string, from: nat, window: nat, a: nat, b: nat)
    requires forall e :: e in history && Within(e, shape, from, window) ==> e.start == a || e.start == b
    ensures AdmittedDuring(history, shape, from, window)
         <= AdmittedIn(history, shape, a) + AdmittedIn(history, shape, b)
  {
    if history != [] {
      assert history[|history| - 1] in history;
      TwoWindowsCover(history[..|history| - 1], shape, from, window, a, b);
    }
  }

  ghost predicate Within(e: Event, shape: string, from: nat, window: nat) {
    e.shape == shape && from <= e.now < from + window
  }

  /** Three windows do not reach into one stretch of a window's length. */
  lemma ThirdWindow(burst: nat, window: nat, history: seq<Event>, shape: string, from: nat, e: Event, f: Event,
                    g: Event)
    requires Windowed(burst, window, history) && e in history && f in history && g in history
    requires Within(e, shape, from, window) && Within(f, shape, from, window) && Within(g, shape, from, window)
    ensures e.start == f.start || f.start == g.start || e.start == g.start
  {
  }

  /** No stretch of one window's length admits more than twice the burst of a shape. */
  lemma IntervalBound(burst: nat, window: nat, history: seq<Event>, shape: string, from: nat)
    requires Windowed(burst, window, history)
    ensures AdmittedDuring(history, shape, from, window) <= 2 * burst
  {
    var a, b := 0, 0;
    if e :| e in history && Within(e, shape, from, window) {
      a, b := e.start, e.start;
      if f :| f in history && Within(f, shape, from, window) && f.start != a {
        b := f.start;
        forall g | g in history && Within(g, shape, from, window) ensures g.start == a || g.start == b {
          ThirdWindow(burst, window, history, shape, from, e, f, g);
        }
      }
    }
    assert forall g :: g in history && Within(g, shape, from, window) ==> g.start == a || g.start == b;
    TwoWindowsCover(history, shape, from, window, a, b);
    assert AdmittedIn(history, shape, a) <= burst && AdmittedIn(history, shape, b) <= burst;
  }

  function ClosedDrops(window: nat, shapes: map<string, Window>, now: nat, shape: string): nat {
    if shape in shapes && Since(now, shapes[shape].start) >= window then shapes[shape].dropped else 0
  }

  /** Closing windows turns their drops into reports and loses none. */
  lemma ClosingKeepsAccount(window: nat, shapes: map<string, Window>, history: seq<Event>, reports: seq<Report>,
                            summaries: seq<Report>, now: nat)
    requires AccountedFor(shapes, history, reports)
    requires forall shape :: Reported(summaries, shape) == ClosedDrops(window, shapes, now, shape)
    ensures AccountedFor(Kept(window, shapes, now), history, reports + summaries)
  {
    forall shape ensures Events(history, shape)
        == Admitted(history, shape) + Reported(reports + summaries, shape)
           + OpenDrops(Kept(window, shapes, now), shape) {
      ReportedSplits(reports, summaries, shape);
      assert Events(history, shape) == Admitted(history, shape) + Reported(reports, shape) + OpenDrops(shapes, shape);
    }
  }

  lemma CheckKeepsWindows(burst: nat, window: nat, shapes: map<string, Window>, history: seq<Event>, last: nat,
                          e: Event,
                          w: Window)
    requires window > 0 && Windowed(burst, window, history) && Current(burst, window, shapes, history, last)
    requires last <= e.now
    requires w == Entered(Kept(window, shapes, e.now), e.shape, e.now) && e.start == w.start
    requires e.admitted == (w.passed < burst)
    ensures Windowed(burst, window, history + [e])
    ensures e.admitted <==> AdmittedIn(history, e.shape, e.start) < burst
    ensures var shapes' := Kept(window, shapes, e.now)[e.shape := Counted(w, burst)];
      Current(burst, window, shapes', history + [e], e.now) && AllOpen(window, shapes', e.now)
  {
    var kept := Kept(window, shapes, e.now);
    KeptIsCurrent(burst, window, shapes, history, last, e.now);
    EnteredWindow(burst, window, kept, history, e.shape, e.now);
    EventKeepsWindowed(burst, window, history, e);
    EventKeepsCurrent(burst, window, kept, history, e, w);
  }

  // ---------------------------------------------------------------- the limiter

  function ReportOf(shape: string, w: Window): Report {
    Report(shape, w.dropped, w.passed)
  }

  class RateLimiter {
    const burst: nat
    const window: nat
    var shapes: map<string, Window>
    ghost var history: seq<Event>
    ghost var reports: seq<Report>
    ghost var last: nat

    /** Holds at any window length. */
    ghost predicate Accounted()
      reads this
    {
      AccountedFor(shapes, history, reports)
    }

    ghost predicate Valid()
      reads this
    {
      window > 0 && Windowed(burst, window, history) && Current(burst, window, shapes, history, last)
    }

    constructor (burst: nat, window: nat)
      ensures this.burst == burst && this.window == window && shapes == map[] && history == [] && reports == []
      ensures last == 0
      ensures Accounted() && (window > 0 ==> Valid())
    {
      this.burst, this.window := burst, window;
      shapes, history, reports, last := map[], [], [], 0;
    }

    /** Forget the windows that are over, in whatever order the map yields them, reporting their drops. */
    method Retain(now: nat) returns (summaries: seq<Report>)
      modifies this`shapes
      ensures shapes == Kept(window, old(shapes), now)
      ensures forall shape :: Reported(summaries, shape) == ClosedDrops(window, old(shapes), now, shape)
      ensures forall r :: r in summaries ==>
                r.shape in old(shapes) && r == ReportOf(r.shape, old(shapes)[r.shape]) && r.dropped > 0
    {
      summaries := [];
      var all := shapes;
      var left := shapes.Keys;
      while left != {}
        invariant left <= all.Keys
        invariant shapes == map shape |
                    shape in all && (shape in left || Since(now, all[shape].start) < window) :: all[shape]
        invariant forall shape ::
                    Reported(summaries, shape) == if shape in left then 0 else ClosedDrops(window, all, now, shape)
        invariant forall r :: r in summaries ==> r.shape in all && r == ReportOf(r.shape, all[r.shape]) && r.dropped > 0
        decreases |left|
      {
        var shape :| shape in left;
        var w := all[shape];
        if !(Since(now, w.start) < window) {
          if w.dropped > 0 {
            assert (summaries + [ReportOf(shape, w)])[..|summaries|] == summaries;
            summaries := summaries + [ReportOf(shape, w)];
          }
          shapes := shapes - {shape};
        }
        left := left - {shape};
      }
    }

    /** Count one event in its shape's window, opening it when there is none. */
    method Enter(shape: string, now: nat) returns (admit: bool)
      modifies this`shapes
      ensures shapes == old(shapes)[shape := Counted(Entered(old(shapes), shape, now), burst)]
      ensures admit <==> Entered(old(shapes), shape, now).passed < burst
    {
      var w := if shape in shapes then shapes[shape] else Window(now, 0, 0);
      admit := w.passed < burst;
      if admit {
        w := w.(passed := w.passed + 1);
      } else {
        w := w.(dropped := w.dropped + 1);
      }
      shapes := shapes[shape := w];
    }

    /** Whether to log an event of `shape`, and the summaries of the windows that just closed. */
    method Check(shape: string, now: nat) returns (admit: bool, summaries: seq<Report>)
      requires Accounted()
      modifies this
      ensures Accounted() && reports == old(reports) + summaries
      ensures var w := Entered(Kept(window, old(shapes), now), shape, now);
        history == old(history) + [Event(shape, now, w.start, admit)]
      ensures var kept := Kept(window, old(shapes), now);
        && shapes == kept[shape := Counted(Entered(kept, shape, now), burst)]
        && (admit <==> Entered(kept, shape, now).passed < burst)
      ensures forall s :: Reported(summaries, s) == ClosedDrops(window, old(shapes), now, s)
      ensures old(Valid()) && old(last) <= now ==> Valid() && last == now && AllOpen(window, shapes, now)
      ensures old(Valid()) && old(last) <= now ==>
                (admit <==> AdmittedIn(old(history), shape, history[|old(history)|].start) < burst)
    {
      ghost var before, log := shapes, history;
      summaries := Retain(now);
      ghost var kept := shapes;
      admit := Enter(shape, now);
      ghost var entered := Entered(kept, shape, now);
      ghost var e := Event(shape, now, entered.start, admit);
      ClosingKeepsAccount(window, before, log, reports, summaries, now);
      EventKeepsAccount(kept, log, reports + summaries, e, entered, burst);
      if old(Valid()) && old(last) <= now {
        CheckKeepsWindows(burst, window, before, log, old(last), e, entered);
        last := now;
      }
      reports, history := reports + summaries, log + [e];
    }
  }
}
