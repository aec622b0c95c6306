/** Safe mode's session lifecycle: `start_recording`, the background listen loop
    (segmentation plus transcription of each emitted utterance) and
    `stop_recording` with its flush of a pending partial utterance. The thread, the
    stop event and the join are folded into atomic steps: the loop has consumed
    the frames handed to `Listen` before `StopRecording` runs. */
module SafeMode {
  import opened Wrappers
  import opened Text
  import opened Audio
  import opened Segmentation
  import opened Censor
  import opened Transcription

  /** `is_listening`, `captured_texts` and the listen loop's engine, whose pending
      utterance is the module-level `voiced_frames`. */
  datatype Session = Session(listening: bool, captured: seq<string>, engine: Engine)

  /** The state at import time. */
  const Initial := Session(false, [], Idle)

  /** The samples of an utterance: its frames' PCM joined in order. */
  function Samples(u: Utterance): seq<Pcm16> {
    Flatten(seq(|u|, k requires 0 <= k < |u| => u[k].frame))
  }

  /** `start_recording`: a no-op while listening; otherwise the loop starts afresh
      with no captured texts, nothing pending and an empty window. */
  function StartRecording(s: Session): (r: Session)
    ensures s.listening ==> r == s
    ensures !s.listening ==> r.listening && r.captured == [] && r.engine == Idle
  {
    if s.listening then s else Session(true, [], Idle)
  }

  /** One iteration of the loop: segment frame `x`; an utterance emitted at offset is
      transcribed against the censor list and a non-empty result is captured. */
  function Hear(s: Session, x: Labeled, banned: seq<string>, c: Collaborators): Session
    requires NonEmptyWords(banned)
  {
    var (e, out) := Step(s.engine, x);
    Session(s.listening, TranscribeAll(s.captured, Emitted(out), banned, c), e)
  }

  function HearAll(s: Session, xs: seq<Labeled>, banned: seq<string>, c: Collaborators): Session
    requires NonEmptyWords(banned)
    decreases |xs|
  {
    if xs == [] then s else HearAll(Hear(s, xs[0], banned, c), xs[1..], banned, c)
  }

  /** The loop consuming `xs`; nothing happens when no session is running. */
  function Listen(s: Session, xs: seq<Labeled>, banned: seq<string>, c: Collaborators): Session
    requires NonEmptyWords(banned)
  {
    if s.listening then HearAll(s, xs, banned, c) else s
  }

  /** Transcribes each utterance in turn and captures the non-empty results. */
  function TranscribeAll(captured: seq<string>, us: seq<Utterance>, banned: seq<string>, c: Collaborators): seq<string>
    requires NonEmptyWords(banned)
    decreases |us|
  {
    if us == [] then captured
    else TranscribeAll(Record(captured, Transcribe(Samples(us[0]), banned, c)), us[1..], banned, c)
  }

  lemma {:induction false} TranscribeAllSplit(captured: seq<string>, a: seq<Utterance>, b: seq<Utterance>, banned: seq<string>, c: Collaborators)
    requires NonEmptyWords(banned)
    ensures TranscribeAll(captured, a + b, banned, c) == TranscribeAll(TranscribeAll(captured, a, banned, c), b, banned, c)
    decreases |a|
  {
    if a != [] {
      assert (a + b)[0] == a[0];
      assert (a + b)[1..] == a[1..] + b;
      TranscribeAllSplit(Record(captured, Transcribe(Samples(a[0]), banned, c)), a[1..], b, banned, c);
    } else {
      assert a + b == b;
    }
  }

  /** Listening is segmentation followed by transcription: the engine ends where the
      segmentation engine alone ends, and the captured texts are those of the
      emitted utterances, in order, appended to what was captured before. */
  lemma {:induction false} HearAllIsFeed(s: Session, xs: seq<Labeled>, banned: seq<string>, c: Collaborators)
    requires NonEmptyWords(banned)
    ensures HearAll(s, xs, banned, c).listening == s.listening
    ensures HearAll(s, xs, banned, c).engine == Feed(s.engine, xs).0
    ensures HearAll(s, xs, banned, c).captured == TranscribeAll(s.captured, Feed(s.engine, xs).1, banned, c)
    decreases |xs|
  {
    if xs != [] {
      var step := Step(s.engine, xs[0]);
      var s1 := Hear(s, xs[0], banned, c);
      RunCons(Step, s.engine, xs);
      HearAllIsFeed(s1, xs[1..], banned, c);
      TranscribeAllSplit(s.captured, Emitted(step.1), Feed(step.0, xs[1..]).1, banned, c);
    }
  }

  /** The flush of `stop_recording` as a list: the pending utterance, if any. */
  function Leftover(e: Engine): seq<Utterance> {
    if e.pending != [] then [e.pending] else []
  }

  /** The result of `stop_recording`: the new session, the partial utterance flushed
      through transcription (if any), and the combined text offered for replay. */
  datatype Stopped = Stopped(session: Session, flushed: Option<Utterance>, replay: Option<string>)

  /** `stop_recording`: a no-op when not listening. Otherwise listening ends, a
      pending partial utterance is transcribed exactly once and its text captured,
      nothing stays pending, and the captured texts, joined by single spaces in
      order, are offered for replay when there are any. */
  function StopRecording(s: Session, banned: seq<string>, c: Collaborators): (r: Stopped)
    requires NonEmptyWords(banned)
    ensures !s.listening ==> r == Stopped(s, None, None)
    ensures s.listening ==> !r.session.listening && r.session.engine == Idle
    ensures s.listening && s.engine.pending != [] ==>
      && r.flushed == Some(s.engine.pending)
      && r.session.captured == Record(s.captured, Transcribe(Samples(s.engine.pending), banned, c))
    ensures s.listening && s.engine.pending == [] ==> r.flushed == None && r.session.captured == s.captured
    ensures s.listening ==> (r.replay.Some? <==> r.session.captured != [])
    ensures r.replay.Some? ==> r.replay.value == Join(" ", r.session.captured)
  {
    if !s.listening then Stopped(s, None, None)
    else
      var pending := s.engine.pending;
      var flushed := if pending != [] then Some(pending) else None;
      var captured := if pending != [] then Record(s.captured, Transcribe(Samples(pending), banned, c)) else s.captured;
      var replay := if captured != [] then Some(Join(" ", captured)) else None;
      Stopped(Session(false, captured, Idle), flushed, replay)
  }

  /** What every session state satisfies: the engine invariant, non-empty captured
      texts, and a fresh engine whenever no session runs. */
  ghost predicate SessionInv(s: Session) {
    && EngineInv(s.engine)
    && NonEmptyWords(s.captured)
    && (!s.listening ==> s.engine == Idle)
  }

  lemma InitialInv()
    ensures SessionInv(Initial)
  {
  }

  lemma StartPreservesInv(s: Session)
    requires SessionInv(s)
    ensures SessionInv(StartRecording(s))
  {
  }

  lemma {:induction false} TranscribeAllKeepsNonEmpty(captured: seq<string>, us: seq<Utterance>, banned: seq<string>, c: Collaborators)
    requires NonEmptyWords(banned)
    requires NonEmptyWords(captured)
    ensures NonEmptyWords(TranscribeAll(captured, us, banned, c))
    ensures captured <= TranscribeAll(captured, us, banned, c)
    decreases |us|
  {
    if us != [] {
      var next := Record(captured, Transcribe(Samples(us[0]), banned, c));
      RecordKeepsNonEmpty(captured, Transcribe(Samples(us[0]), banned, c));
      TranscribeAllKeepsNonEmpty(next, us[1..], banned, c);
    }
  }

  /** Listening keeps the invariant and only ever appends to the captured texts. */
  lemma ListenPreservesInv(s: Session, xs: seq<Labeled>, banned: seq<string>, c: Collaborators)
    requires NonEmptyWords(banned)
    requires SessionInv(s)
    ensures SessionInv(Listen(s, xs, banned, c))
    ensures s.captured <= Listen(s, xs, banned, c).captured
    ensures Listen(s, xs, banned, c).listening == s.listening
  {
    if s.listening {
      HearAllIsFeed(s, xs, banned, c);
      FeedPreservesInv(s.engine, xs);
      TranscribeAllKeepsNonEmpty(s.captured, Feed(s.engine, xs).1, banned, c);
    }
  }

  /** Stopping keeps the invariant, and a flushed utterance is a real one: at least
      seven frames, all seven voiced seed frames included. */
  lemma StopPreservesInv(s: Session, banned: seq<string>, c: Collaborators)
    requires NonEmptyWords(banned)
    requires SessionInv(s)
    ensures SessionInv(StopRecording(s, banned, c).session)
    ensures StopRecording(s, banned, c).flushed.Some? ==>
      |StopRecording(s, banned, c).flushed.value| >= 7 && Count(StopRecording(s, banned, c).flushed.value, true) >= 7
  {
    if s.listening && s.engine.pending != [] {
      RecordKeepsNonEmpty(s.captured, Transcribe(Samples(s.engine.pending), banned, c));
    }
  }

  /** A whole session from a stopped state: start, the loop consumes `xs`, stop. The
      captured texts are exactly the transcriptions of the utterances segmented from
      `xs`, in order, followed by that of the flushed partial utterance; each of them
      is a contiguous run of `xs`, and the replay offers them joined by spaces. */
  lemma {:induction false} SessionTranscript(s: Session, xs: seq<Labeled>, banned: seq<string>, c: Collaborators)
    requires NonEmptyWords(banned)
    requires !s.listening
    ensures var fed := Feed(Idle, xs);
            var r := StopRecording(Listen(StartRecording(s), xs, banned, c), banned, c);
            && r.session.captured == TranscribeAll([], fed.1 + Leftover(fed.0), banned, c)
            && (r.flushed.Some? <==> fed.0.pending != [])
            && (r.flushed.Some? ==> r.flushed.value == fed.0.pending && IsSlice(fed.0.pending, xs))
            && (forall k :: 0 <= k < |fed.1| ==> IsSlice(fed.1[k], xs) && WellFormedUtterance(fed.1[k]))
            && (r.replay.Some? ==> r.replay.value == Join(" ", r.session.captured))
  {
    var fed := Feed(Idle, xs);
    var started := StartRecording(s);
    HearAllIsFeed(started, xs, banned, c);
    var listened := Listen(started, xs, banned, c);
    assert listened.listening && listened.engine == fed.0;
    assert listened.captured == TranscribeAll([], fed.1, banned, c);
    StopFlushes(listened, banned, c);
    TranscribeAllSplit([], fed.1, Leftover(fed.0), banned, c);
    FeedFromIdle(xs);
  }

  /** Stopping a running session transcribes what is left over, in the same way the
      loop transcribes emitted utterances. */
  lemma StopFlushes(s: Session, banned: seq<string>, c: Collaborators)
    requires NonEmptyWords(banned)
    requires s.listening
    ensures StopRecording(s, banned, c).session.captured == TranscribeAll(s.captured, Leftover(s.engine), banned, c)
    ensures StopRecording(s, banned, c).flushed.Some? <==> s.engine.pending != []
  {
    var r := StopRecording(s, banned, c);
    if s.engine.pending != [] {
      assert Leftover(s.engine) == [s.engine.pending];
      TranscribeOne(s.captured, s.engine.pending, banned, c);
    } else {
      assert Leftover(s.engine) == [];
    }
  }

  lemma TranscribeOne(captured: seq<string>, u: Utterance, banned: seq<string>, c: Collaborators)
    requires NonEmptyWords(banned)
    ensures TranscribeAll(captured, [u], banned, c) == Record(captured, Transcribe(Samples(u), banned, c))
  {
    assert [u][1..] == [];
  }

  /** Starting again after a stop begins a new, empty transcript: the texts of the
      previous session stay captured until the next start. */
  lemma RestartClearsTranscript(s: Session, banned: seq<string>, c: Collaborators)
    requires NonEmptyWords(banned)
    requires s.listening
    ensures StartRecording(StopRecording(s, banned, c).session).captured == []
    ensures StartRecording(StopRecording(s, banned, c).session).listening
  {
  }
}
