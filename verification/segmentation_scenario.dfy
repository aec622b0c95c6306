/** A worked stream for the segmentation engine: five unvoiced frames, seven voiced
    ones, twenty more voiced ones and four unvoiced ones. The engine triggers on the
    twelfth frame, seeding the utterance with the whole ten-entry window (three of
    its entries unvoiced), and emits at the last frame one utterance of 34 frames:
    everything from the third frame on. */
module SegmentationScenario {
  import opened Wrappers
  import opened Segmentation

  /** The 36 labels of the stream: frames 5 to 31 are voiced. */
  ghost predicate Scenario(xs: seq<Labeled>) {
    |xs| == 36 && forall i :: 0 <= i < 36 ==> xs[i].speech == (5 <= i < 32)
  }

  function Max(a: int, b: int): int { if a < b then b else a }
  function Min(a: int, b: int): int { if a < b then a else b }

  /** The number of voiced indices in `[lo, hi)`. */
  function VoicedIn(lo: int, hi: int): nat {
    Max(0, Min(hi, 32) - Max(lo, 5))
  }

  lemma {:induction false} CountWindow(xs: seq<Labeled>, lo: nat, hi: nat)
    requires Scenario(xs) && lo <= hi <= 36
    ensures Count(xs[lo..hi], true) == VoicedIn(lo, hi)
    ensures Count(xs[lo..hi], false) == (hi - lo) - VoicedIn(lo, hi)
    decreases hi - lo
  {
    CountSplit(xs[lo..hi]);
    if lo < hi {
      CountWindow(xs, lo, hi - 1);
      WindowGrows(xs, lo, hi);
    }
  }

  /** Widening the window by one frame on the right adds that frame's label. */
  lemma WindowGrows(xs: seq<Labeled>, lo: nat, hi: nat)
    requires Scenario(xs) && lo < hi <= 36
    ensures Count(xs[lo..hi], true) == Count(xs[lo..hi - 1], true) + (if 5 <= hi - 1 < 32 then 1 else 0)
  {
    var x := xs[hi - 1];
    assert xs[lo..hi] == xs[lo..hi - 1] + [x];
    CountAppend(xs[lo..hi - 1], [x], true);
    assert Count([x], true) == if x.speech then 1 else 0;
  }

  /** Running over one more input is one more step. */
  lemma RunSnoc<S, X, O>(step: (S, X) -> (S, Option<O>), s: S, ys: seq<X>, x: X)
    ensures Run(step, s, ys + [x]).0 == step(Run(step, s, ys).0, x).0
    ensures Run(step, s, ys + [x]).1 == Run(step, s, ys).1 + Emitted(step(Run(step, s, ys).0, x).1)
  {
    RunSplit(step, s, ys, [x]);
    assert [x][1..] == [];
  }

  /** The outputs `out(0)`, ..., `out(n - 1)` that are present, in order. */
  function Collect<O>(out: nat -> Option<O>, n: nat): seq<O> {
    if n == 0 then [] else Collect(out, n - 1) + Emitted(out(n - 1))
  }

  /** A fold whose every step `i` goes from `st(i)` to `st(i + 1)` emitting `out(i)`
      ends, after `n` inputs, in `st(n)` having emitted exactly those outputs. */
  lemma {:induction false} RunTrace<S, X, O>(step: (S, X) -> (S, Option<O>), st: nat -> S,
                                             out: nat -> Option<O>, xs: seq<X>, n: nat)
    requires n <= |xs|
    requires forall i :: 0 <= i < n ==> step(st(i), xs[i]) == (st(i + 1), out(i))
    ensures Run(step, st(0), xs[..n]) == (st(n), Collect(out, n))
  {
    if n == 0 {
      assert xs[..0] == [];
    } else {
      RunTrace(step, st, out, xs, n - 1);
      assert xs[..n] == xs[..n - 1] + [xs[n - 1]];
      RunSnoc(step, st(0), xs[..n - 1], xs[n - 1]);
    }
  }

  lemma {:induction false} CollectNone<O>(out: nat -> Option<O>, n: nat)
    requires forall i :: 0 <= i < n ==> out(i).None?
    ensures Collect(out, n) == []
  {
    if n > 0 {
      CollectNone(out, n - 1);
    }
  }

  /** The engine after the first `i` frames of the worked stream: idle with the last
      ten frames in its window up to frame 11; then triggered, with the frames since
      onset in its window and frames 2 onwards pending; idle again after the last. */
  ghost function State(xs: seq<Labeled>, i: nat): Engine {
    if |xs| != 36 || i > 36 then Idle
    else if i <= 11 then Engine(xs[Max(0, i - 10)..i], false, [])
    else if i <= 35 then Engine(xs[Max(12, i - 10)..i], true, xs[2..i])
    else Engine(xs[26..36], false, [])
  }

  /** What frame `i` of the worked stream emits: only the last one emits. */
  ghost function Out(xs: seq<Labeled>, i: nat): Option<Utterance> {
    if |xs| == 36 && i == 35 then Some(xs[2..36]) else None
  }

  lemma PushWindow(xs: seq<Labeled>, lo: nat, n: nat)
    requires lo <= n < |xs| && n - lo <= RingCapacity
    ensures Push(xs[lo..n], xs[n]) == xs[(if n - lo < RingCapacity then lo else lo + 1)..n + 1]
  {
    assert xs[lo..n] + [xs[n]] == xs[lo..n + 1];
  }

  /** Frames 0 to 10 leave the engine idle. */
  lemma IdleStep(xs: seq<Labeled>, i: nat)
    requires Scenario(xs) && i < 11
    ensures Step(Engine(xs[Max(0, i - 10)..i], false, []), xs[i])
         == (Engine(xs[Max(0, i - 9)..i + 1], false, []), None)
  {
    var e := Engine(xs[Max(0, i - 10)..i], false, []);
    PushWindow(xs, Max(0, i - 10), i);
    CountWindow(xs, Max(0, i - 9), i + 1);
    OnsetRule(e, xs[i]);
  }

  /** Frame 11 triggers: the pending utterance is the window, frames 2 to 11. */
  lemma OnsetStep(xs: seq<Labeled>)
    requires Scenario(xs)
    ensures Step(Engine(xs[1..11], false, []), xs[11]) == (Engine([], true, xs[2..12]), None)
  {
    var e := Engine(xs[1..11], false, []);
    PushWindow(xs, 1, 11);
    CountWindow(xs, 2, 12);
    assert VoicedIn(2, 12) == 7;
    OnsetRule(e, xs[11]);
  }

  /** Frames 12 to 34 keep the engine triggered. */
  lemma TriggeredStep(xs: seq<Labeled>, m: nat)
    requires Scenario(xs) && 12 <= m < 35
    ensures Step(Engine(xs[Max(12, m - 10)..m], true, xs[2..m]), xs[m])
         == (Engine(xs[Max(12, m - 9)..m + 1], true, xs[2..m + 1]), None)
  {
    var e := Engine(xs[Max(12, m - 10)..m], true, xs[2..m]);
    assert xs[2..m + 1] == xs[2..m] + [xs[m]];
    PushWindow(xs, Max(12, m - 10), m);
    CountWindow(xs, Max(12, m - 9), m + 1);
    OffsetRule(e, xs[m]);
  }

  /** Frame 35 brings the fourth unvoiced entry into the window: offset. */
  lemma OffsetStep(xs: seq<Labeled>)
    requires Scenario(xs)
    ensures Step(Engine(xs[25..35], true, xs[2..35]), xs[35])
         == (Engine(xs[26..36], false, []), Some(xs[2..36]))
  {
    var e := Engine(xs[25..35], true, xs[2..35]);
    assert xs[2..36] == xs[2..35] + [xs[35]];
    PushWindow(xs, 25, 35);
    CountWindow(xs, 26, 36);
    OffsetRule(e, xs[35]);
  }

  /** Each frame of the worked stream moves the engine from `State(xs, i)` to
      `State(xs, i + 1)`, emitting `Out(xs, i)`. */
  lemma StepAt(xs: seq<Labeled>, i: nat)
    requires Scenario(xs) && i < 36
    ensures Step(State(xs, i), xs[i]) == (State(xs, i + 1), Out(xs, i))
  {
    if i < 11 {
      IdleStep(xs, i);
    } else if i == 11 {
      OnsetStep(xs);
      assert State(xs, 12).ring == xs[12..12] == [];
    } else if i < 35 {
      TriggeredStep(xs, i);
    } else {
      OffsetStep(xs);
    }
  }

  ghost function StateOf(xs: seq<Labeled>): nat -> Engine {
    (i: nat) => State(xs, i)
  }

  ghost function OutOf(xs: seq<Labeled>): nat -> Option<Utterance> {
    (i: nat) => Out(xs, i)
  }

  lemma ScenarioSteps(xs: seq<Labeled>)
    requires Scenario(xs)
    ensures forall i: nat :: i < 36 ==> Step(StateOf(xs)(i), xs[i]) == (StateOf(xs)(i + 1), OutOf(xs)(i))
  {
    forall i: nat | i < 36
      ensures Step(StateOf(xs)(i), xs[i]) == (StateOf(xs)(i + 1), OutOf(xs)(i))
    {
      StepAt(xs, i);
    }
  }

  lemma ScenarioOutputs(xs: seq<Labeled>, n: nat)
    requires |xs| == 36 && n <= 36
    ensures Collect(OutOf(xs), n) == if n == 36 then [xs[2..36]] else []
  {
    if n == 36 {
      CollectNone(OutOf(xs), 35);
      assert Collect(OutOf(xs), 36) == Collect(OutOf(xs), 35) + [xs[2..36]];
    } else {
      CollectNone(OutOf(xs), n);
    }
  }

  /** After any prefix of the worked stream the engine is in `State(xs, n)`; nothing
      has been emitted before the last frame. */
  lemma ScenarioTrace(xs: seq<Labeled>, n: nat)
    requires Scenario(xs) && n <= 36
    ensures Feed(Idle, xs[..n]).0 == State(xs, n)
    ensures Feed(Idle, xs[..n]).1 == if n == 36 then [xs[2..36]] else []
  {
    ScenarioSteps(xs);
    assert StateOf(xs)(0) == Idle by {
      assert xs[0..0] == [];
    }
    RunTrace(Step, StateOf(xs), OutOf(xs), xs, n);
    ScenarioOutputs(xs, n);
  }

  /** The whole stream yields exactly one utterance, frames 2 to 35, and leaves the
      engine idle with the last ten frames still in its window. */
  lemma ScenarioUtterance(xs: seq<Labeled>)
    requires Scenario(xs)
    ensures Feed(Idle, xs).1 == [xs[2..36]]
    ensures |Feed(Idle, xs).1[0]| == 34
    ensures Feed(Idle, xs).0 == Engine(xs[26..36], false, [])
  {
    ScenarioTrace(xs, 36);
    assert xs[..36] == xs;
  }
}
