/** The speech segmentation engine of safe mode's listen loop: a two-state machine
    (idle / triggered) folded over voice-activity-labelled frames. While idle a
    ten-entry look-back window detects speech onset; once triggered every frame joins
    the pending utterance until the same window shows enough silence, and the
    utterance is emitted. The window is cleared at onset only. */
module Segmentation {
  import opened Wrappers
  import opened Audio

  /** A frame together with the voice-activity verdict `vad.is_speech` gave it. */
  datatype Labeled = Labeled(frame: Frame, speech: bool)

  /** A run of labelled frames handed on for transcription. */
  type Utterance = seq<Labeled>

  /** `collections.deque(maxlen=10)`. */
  const RingCapacity: nat := 10
  /** Onset fires when more than this fraction of the window is voiced. */
  const OnsetRatio: real := 0.6
  /** Offset fires when more than this fraction of the window is unvoiced. */
  const OffsetRatio: real := 0.3

  /** The number of entries of `xs` whose label is `speech`. */
  function Count(xs: seq<Labeled>, speech: bool): (n: nat)
    ensures n <= |xs|
  {
    if |xs| == 0 then 0 else (if xs[0].speech == speech then 1 else 0) + Count(xs[1..], speech)
  }

  lemma {:induction false} CountAppend(a: seq<Labeled>, b: seq<Labeled>, speech: bool)
    ensures Count(a + b, speech) == Count(a, speech) + Count(b, speech)
  {
    if a != [] {
      assert (a + b)[0] == a[0];
      assert (a + b)[1..] == a[1..] + b;
      CountAppend(a[1..], b, speech);
    } else {
      assert a + b == b;
    }
  }

  /** Every entry is either voiced or unvoiced. */
  lemma {:induction false} CountSplit(xs: seq<Labeled>)
    ensures Count(xs, true) + Count(xs, false) == |xs|
  {
    if xs != [] {
      CountSplit(xs[1..]);
    }
  }

  /** `deque.append` on a deque bounded by `RingCapacity`: the newest entries, at
      most ten of them, in arrival order. */
  function Push(ring: seq<Labeled>, x: Labeled): (r: seq<Labeled>)
    ensures |r| == if |ring| < RingCapacity then |ring| + 1 else RingCapacity
    ensures r == (ring + [x])[|ring| + 1 - |r|..]
  {
    if |ring| < RingCapacity then ring + [x] else (ring + [x])[|ring| + 1 - RingCapacity..]
  }

  /** `num_voiced > 0.6 * ring_buffer.maxlen`. */
  predicate OnsetDue(window: seq<Labeled>) {
    (Count(window, true) as real) > OnsetRatio * (RingCapacity as real)
  }

  /** `num_unvoiced > 0.3 * ring_buffer.maxlen`. */
  predicate OffsetDue(window: seq<Labeled>) {
    (Count(window, false) as real) > OffsetRatio * (RingCapacity as real)
  }

  /** The loop's state: the look-back window, the `triggered` flag and the pending
      utterance (`voiced_frames`). */
  datatype Engine = Engine(ring: seq<Labeled>, triggered: bool, pending: Utterance)

  /** The state the loop starts in. */
  const Idle := Engine([], false, [])

  /** One iteration of the listen loop on frame `x`. The second component is the
      utterance emitted at offset, if any. */
  function Step(e: Engine, x: Labeled): (Engine, Option<Utterance>)
  {
    var ring := Push(e.ring, x);
    if !e.triggered then
      if OnsetDue(ring) then (Engine([], true, ring), None)
      else (Engine(ring, false, e.pending), None)
    else
      var utterance := e.pending + [x];
      if OffsetDue(ring) then (Engine(ring, false, []), Some(utterance))
      else (Engine(ring, true, utterance), None)
  }

  /** While idle, the engine triggers exactly when at least seven entries of the
      window (with `x` pushed) are voiced; it then seeds the pending utterance with
      the whole window, in order, and empties the window. Otherwise it only pushes
      `x`. Nothing is emitted. */
  lemma OnsetRule(e: Engine, x: Labeled)
    requires !e.triggered
    ensures Step(e, x).1 == None
    ensures Step(e, x).0.triggered <==> Count(Push(e.ring, x), true) >= 7
    ensures Step(e, x).0.triggered ==> Step(e, x).0.pending == Push(e.ring, x) && Step(e, x).0.ring == []
    ensures !Step(e, x).0.triggered ==> Step(e, x).0.pending == e.pending && Step(e, x).0.ring == Push(e.ring, x)
  {
  }

  /** While triggered, `x` joins both the window and the pending utterance. When at
      least four entries of the window are unvoiced the engine returns to idle and
      emits exactly one utterance, the pending frames followed by `x`, and nothing
      stays pending; the window is kept. */
  lemma OffsetRule(e: Engine, x: Labeled)
    requires e.triggered
    ensures Step(e, x).0.ring == Push(e.ring, x)
    ensures Step(e, x).1.Some? <==> Count(Push(e.ring, x), false) >= 4
    ensures Step(e, x).1.Some? ==> Step(e, x).1.value == e.pending + [x] && !Step(e, x).0.triggered && Step(e, x).0.pending == []
    ensures Step(e, x).1.None? ==> Step(e, x).0.triggered && Step(e, x).0.pending == e.pending + [x]
  {
  }

  /** What the engine keeps true between frames. An idle engine has nothing pending
      and fewer than seven voiced entries in its window; a triggered one has at most
      three unvoiced entries in its window, which holds the newest frames of the
      pending utterance, and that utterance holds its seven voiced seed frames plus
      every frame since onset. */
  ghost predicate EngineInv(e: Engine) {
    && |e.ring| <= RingCapacity
    && (!e.triggered ==> e.pending == [] && Count(e.ring, true) <= 6)
    && (e.triggered ==>
          && Count(e.ring, false) <= 3
          && |e.pending| >= 7 + |e.ring|
          && e.ring == e.pending[|e.pending| - |e.ring|..]
          && Count(e.pending, true) >= 7)
  }

  /** An utterance emitted at offset: its seed of at least seven voiced frames from
      onset, then at least four more frames, because the window was emptied at onset
      and offset needs four unvoiced entries in it. */
  ghost predicate WellFormedUtterance(u: Utterance) {
    |u| >= 11 && Count(u, true) >= 7
  }

  lemma PushSuffix(ring: seq<Labeled>, x: Labeled, pending: Utterance)
    requires |ring| <= |pending| && ring == pending[|pending| - |ring|..]
    ensures Push(ring, x) == (pending + [x])[|pending| + 1 - |Push(ring, x)|..]
  {
    var p := Push(ring, x);
    assert ring + [x] == (pending + [x])[|pending| - |ring|..];
  }

  lemma IdleStepPreservesInv(e: Engine, x: Labeled)
    requires EngineInv(e) && !e.triggered
    ensures EngineInv(Step(e, x).0)
  {
    var ring := Push(e.ring, x);
    OnsetRule(e, x);
    CountSplit(ring);
    CountAppend(e.ring, [x], true);
    if Count(ring, true) >= 7 {
      assert ring[|ring| - 0..] == [];
    }
  }

  lemma TriggeredStepPreservesInv(e: Engine, x: Labeled)
    requires EngineInv(e) && e.triggered
    ensures EngineInv(Step(e, x).0)
    ensures Step(e, x).1.Some? ==> WellFormedUtterance(Step(e, x).1.value)
  {
    var ring, u := Push(e.ring, x), e.pending + [x];
    OffsetRule(e, x);
    if Count(ring, false) >= 4 {
      OffsetStepInv(e, x, ring, u);
      assert Step(e, x) == (Engine(ring, false, []), Some(u));
    } else {
      StayStepInv(e, x, ring, u);
      assert Step(e, x).0 == Engine(ring, true, u);
    }
  }

  /** At offset the window has at least four entries, so the pending utterance had
      at least ten frames. */
  lemma OffsetStepInv(e: Engine, x: Labeled, ring: seq<Labeled>, u: Utterance)
    requires EngineInv(e) && e.triggered
    requires ring == Push(e.ring, x) && u == e.pending + [x]
    requires Count(ring, false) >= 4
    ensures EngineInv(Engine(ring, false, []))
    ensures WellFormedUtterance(u)
  {
    CountSplit(ring);
    CountAppend(e.pending, [x], true);
  }

  /** Without offset the window stays the tail of the grown utterance. */
  lemma StayStepInv(e: Engine, x: Labeled, ring: seq<Labeled>, u: Utterance)
    requires EngineInv(e) && e.triggered
    requires ring == Push(e.ring, x) && u == e.pending + [x]
    requires Count(ring, false) <= 3
    ensures EngineInv(Engine(ring, true, u))
  {
    CountAppend(e.pending, [x], true);
    TailAfterPush(e.ring, x, e.pending, ring, u);
  }

  lemma TailAfterPush(w: seq<Labeled>, x: Labeled, pending: Utterance, ring: seq<Labeled>, u: Utterance)
    requires |w| <= RingCapacity && |pending| >= 7 + |w| && w == pending[|pending| - |w|..]
    requires ring == Push(w, x) && u == pending + [x]
    ensures |u| >= 7 + |ring| && ring == u[|u| - |ring|..]
  {
    PushSuffix(w, x, pending);
  }

  /** Each iteration keeps `EngineInv`, and whatever it emits is well formed. */
  lemma StepPreservesInv(e: Engine, x: Labeled)
    requires EngineInv(e)
    ensures EngineInv(Step(e, x).0)
    ensures Step(e, x).1.Some? ==> WellFormedUtterance(Step(e, x).1.value)
  {
    if e.triggered {
      TriggeredStepPreservesInv(e, x);
    } else {
      IdleStepPreservesInv(e, x);
    }
  }

  /** The outputs of one iteration as a list of zero or one values. */
  function Emitted<O>(out: Option<O>): seq<O> {
    if out.Some? then [out.value] else []
  }

  /** Folds a step function over a stream, collecting its outputs in order. */
  function Run<S, X, O>(step: (S, X) -> (S, Option<O>), s: S, xs: seq<X>): (S, seq<O>)
    decreases |xs|
  {
    if xs == [] then (s, [])
    else
      var first := step(s, xs[0]);
      var rest := Run(step, first.0, xs[1..]);
      (rest.0, Emitted(first.1) + rest.1)
  }

  /** Running over a non-empty stream is one step followed by running over the rest. */
  lemma RunCons<S, X, O>(step: (S, X) -> (S, Option<O>), s: S, xs: seq<X>)
    requires xs != []
    ensures Run(step, s, xs).0 == Run(step, step(s, xs[0]).0, xs[1..]).0
    ensures Run(step, s, xs).1 == Emitted(step(s, xs[0]).1) + Run(step, step(s, xs[0]).0, xs[1..]).1
  {
  }

  /** Running over a stream in two pieces is running over it at once. */
  lemma {:induction false} RunSplit<S, X, O>(step: (S, X) -> (S, Option<O>), s: S, a: seq<X>, b: seq<X>)
    ensures Run(step, s, a + b).0 == Run(step, Run(step, s, a).0, b).0
    ensures Run(step, s, a + b).1 == Run(step, s, a).1 + Run(step, Run(step, s, a).0, b).1
    decreases |a|
  {
    if a != [] {
      assert (a + b)[0] == a[0];
      assert (a + b)[1..] == a[1..] + b;
      RunSplit(step, step(s, a[0]).0, a[1..], b);
    } else {
      assert a + b == b;
    }
  }

  /** A fold keeps `inv`, a property of the state and of the stream seen so far, and
      every output satisfies `good` for the whole stream, as long as each single
      step keeps `inv` and produces only outputs that are `good` for the stream seen
      at that point, and `good` survives extending the stream. */
  lemma {:induction false} RunKeeps<S, X, O>(step: (S, X) -> (S, Option<O>), inv: (S, seq<X>) -> bool,
                                             good: (O, seq<X>) -> bool, s: S, seen: seq<X>, xs: seq<X>)
    requires forall t, past, x :: inv(t, past) ==> inv(step(t, x).0, past + [x])
    requires forall t, past, x :: inv(t, past) && step(t, x).1.Some? ==> good(step(t, x).1.value, past + [x])
    requires forall o, a, b :: good(o, a) ==> good(o, a + b)
    requires inv(s, seen)
    ensures inv(Run(step, s, xs).0, seen + xs)
    ensures forall k :: 0 <= k < |Run(step, s, xs).1| ==> good(Run(step, s, xs).1[k], seen + xs)
    decreases |xs|
  {
    if xs == [] {
      assert seen + xs == seen;
    } else {
      var x := xs[0];
      var first := step(s, x);
      var rest := Run(step, first.0, xs[1..]);
      assert (seen + [x]) + xs[1..] == seen + xs;
      RunKeeps(step, inv, good, first.0, seen + [x], xs[1..]);
      var all := Run(step, s, xs).1;
      assert all == Emitted(first.1) + rest.1;
      forall k | 0 <= k < |all|
        ensures good(all[k], seen + xs)
      {
        if k < |Emitted(first.1)| {
          assert good(first.1.value, seen + [x]);
        } else {
          assert all[k] == rest.1[k - |Emitted(first.1)|];
        }
      }
    }
  }

  /** The listen loop over a whole stream: the final engine and the utterances
      emitted, in order. */
  function Feed(e: Engine, xs: seq<Labeled>): (Engine, seq<Utterance>)
  {
    Run(Step, e, xs)
  }

  /** Over any stream, the invariant survives and every emitted utterance has at
      least eleven frames, seven of them voiced: none is ever empty. */
  lemma FeedPreservesInv(e: Engine, xs: seq<Labeled>)
    requires EngineInv(e)
    ensures EngineInv(Feed(e, xs).0)
    ensures forall k :: 0 <= k < |Feed(e, xs).1| ==> WellFormedUtterance(Feed(e, xs).1[k])
  {
    var inv := (t: Engine, past: seq<Labeled>) => EngineInv(t);
    var good := (u: Utterance, past: seq<Labeled>) => WellFormedUtterance(u);
    forall t: Engine, past: seq<Labeled>, x: Labeled | inv(t, past)
      ensures inv(Step(t, x).0, past + [x])
      ensures Step(t, x).1.Some? ==> good(Step(t, x).1.value, past + [x])
    {
      StepPreservesInv(t, x);
    }
    RunKeeps(Step, inv, good, e, [], xs);
  }

  ghost predicate IsSuffix<T>(a: seq<T>, b: seq<T>) {
    |a| <= |b| && b[|b| - |a|..] == a
  }

  /** `u` occurs in `s` as a contiguous run. */
  ghost predicate IsSlice<T>(u: seq<T>, s: seq<T>) {
    exists i, j :: 0 <= i <= j <= |s| && s[i..j] == u
  }

  /** The engine's buffers are made of the newest frames of the stream `seen`. */
  ghost predicate FromStream(e: Engine, seen: seq<Labeled>) {
    IsSuffix(e.ring, seen) && (e.triggered ==> IsSuffix(e.pending, seen))
  }

  lemma SuffixThenSlice<T>(u: seq<T>, s: seq<T>, t: seq<T>)
    requires IsSuffix(u, s)
    ensures IsSlice(u, s + t)
  {
    var i := |s| - |u|;
    assert (s + t)[i..|s|] == s[i..];
  }

  lemma SliceExtend<T>(u: seq<T>, s: seq<T>, t: seq<T>)
    requires IsSlice(u, s)
    ensures IsSlice(u, s + t)
  {
    var i, j :| 0 <= i <= j <= |s| && s[i..j] == u;
    assert (s + t)[i..j] == s[i..j];
  }

  lemma SuffixSnoc<T>(u: seq<T>, seen: seq<T>, x: T)
    requires IsSuffix(u, seen)
    ensures IsSuffix(u + [x], seen + [x])
  {
    var s := seen + [x];
    assert s[|s| - |u| - 1..] == seen[|seen| - |u|..] + [x];
  }

  lemma PushFromStream(ring: seq<Labeled>, seen: seq<Labeled>, x: Labeled)
    requires IsSuffix(ring, seen)
    ensures IsSuffix(Push(ring, x), seen + [x])
  {
    SuffixSnoc(ring, seen, x);
    SuffixOfSuffix(Push(ring, x), ring + [x], seen + [x]);
  }

  lemma SuffixOfSuffix<T>(c: seq<T>, a: seq<T>, b: seq<T>)
    requires IsSuffix(c, a) && IsSuffix(a, b)
    ensures IsSuffix(c, b)
  {
    assert b[|b| - |c|..] == b[|b| - |a|..][|a| - |c|..];
  }

  lemma StepFromStream(e: Engine, seen: seq<Labeled>, x: Labeled)
    requires FromStream(e, seen)
    ensures FromStream(Step(e, x).0, seen + [x])
    ensures Step(e, x).1.Some? ==> IsSuffix(Step(e, x).1.value, seen + [x])
  {
    PushFromStream(e.ring, seen, x);
    assert IsSuffix([], seen + [x]);
    if e.triggered {
      SuffixSnoc(e.pending, seen, x);
      OffsetRule(e, x);
    } else {
      OnsetRule(e, x);
    }
  }

  /** Every utterance emitted while feeding `xs` after the stream `seen` is a
      contiguous run of the whole stream `seen + xs`: frames are never reordered,
      skipped or invented. */
  lemma FeedEmitsSlices(e: Engine, seen: seq<Labeled>, xs: seq<Labeled>)
    requires FromStream(e, seen)
    ensures FromStream(Feed(e, xs).0, seen + xs)
    ensures forall k :: 0 <= k < |Feed(e, xs).1| ==> IsSlice(Feed(e, xs).1[k], seen + xs)
  {
    var inv := (t: Engine, past: seq<Labeled>) => FromStream(t, past);
    var good := (u: Utterance, past: seq<Labeled>) => IsSlice(u, past);
    forall t: Engine, past: seq<Labeled>, x: Labeled | inv(t, past)
      ensures inv(Step(t, x).0, past + [x])
      ensures Step(t, x).1.Some? ==> good(Step(t, x).1.value, past + [x])
    {
      StepFromStream(t, past, x);
      if Step(t, x).1.Some? {
        SuffixThenSlice(Step(t, x).1.value, past + [x], []);
        assert past + [x] + [] == past + [x];
      }
    }
    forall u: Utterance, a: seq<Labeled>, b: seq<Labeled> | good(u, a)
      ensures good(u, a + b)
    {
      SliceExtend(u, a, b);
    }
    RunKeeps(Step, inv, good, e, seen, xs);
  }

  lemma AllSlices<T>(head: seq<seq<T>>, rest: seq<seq<T>>, s: seq<T>)
    requires forall k :: 0 <= k < |head| ==> IsSlice(head[k], s)
    requires forall k :: 0 <= k < |rest| ==> IsSlice(rest[k], s)
    ensures forall k :: 0 <= k < |head + rest| ==> IsSlice((head + rest)[k], s)
  {
    forall k | 0 <= k < |head + rest|
      ensures IsSlice((head + rest)[k], s)
    {
      if k >= |head| {
        assert (head + rest)[k] == rest[k - |head|];
      }
    }
  }

  /** From the initial state, the utterances are contiguous runs of the input. */
  lemma FeedFromIdleEmitsSlices(xs: seq<Labeled>)
    ensures forall k :: 0 <= k < |Feed(Idle, xs).1| ==> IsSlice(Feed(Idle, xs).1[k], xs)
  {
    assert FromStream(Idle, []);
    FeedEmitsSlices(Idle, [], xs);
    assert [] + xs == xs;
  }

  /** From the initial state: every emitted utterance is a well-formed contiguous run
      of the input, and so is what is left pending at the end. */
  lemma FeedFromIdle(xs: seq<Labeled>)
    ensures forall k :: 0 <= k < |Feed(Idle, xs).1| ==>
      IsSlice(Feed(Idle, xs).1[k], xs) && WellFormedUtterance(Feed(Idle, xs).1[k])
    ensures Feed(Idle, xs).0.pending != [] ==> IsSlice(Feed(Idle, xs).0.pending, xs)
  {
    FeedFromIdleEmitsSlices(xs);
    FeedPreservesInv(Idle, xs);
    var e := Feed(Idle, xs).0;
    assert FromStream(Idle, []);
    FeedEmitsSlices(Idle, [], xs);
    assert [] + xs == xs;
    if e.pending != [] {
      SuffixThenSlice(e.pending, xs, []);
      assert xs + [] == xs;
    }
  }

  /** The window is not cleared at offset: right after an utterance is emitted the
      window still holds its last four to ten frames, so the next onset can seed the
      next utterance with frames that were already emitted. */
  lemma OffsetKeepsTail(e: Engine, x: Labeled)
    requires EngineInv(e) && e.triggered && Step(e, x).1.Some?
    ensures 4 <= |Step(e, x).0.ring| <= RingCapacity
    ensures IsSuffix(Step(e, x).0.ring, Step(e, x).1.value)
  {
    var ring := Push(e.ring, x);
    OffsetRule(e, x);
    CountSplit(ring);
    PushSuffix(e.ring, x, e.pending);
  }
}
