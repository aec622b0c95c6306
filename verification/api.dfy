/** The HTTP backend of `main.py`: the censor-word list, the two run flags and the
    handlers that drive safe mode and group mode. Routing, CORS and JSON encoding
    are outside the model; each handler is a pure function from the backend state
    to the new state and its response. */
module Api {
  import opened Wrappers
  import opened Text
  import opened Censor
  import opened Segmentation
  import opened Transcription
  import SafeMode
  import GroupMode

  /** The `status` field of a start/stop response. */
  datatype RunStatus = Started | AlreadyRunning | Stopped | NotRunning

  /** An `HTTPException` with its status code and detail. */
  datatype HttpError = HttpError(code: nat, detail: string)

  /** `state`, `censor_words`, and the two mode modules' own state. */
  datatype State = State(
    safeRunning: bool,
    groupRunning: bool,
    words: seq<string>,
    safe: SafeMode.Session,
    group: GroupMode.Recorder)

  const Initial := State(false, false, [], SafeMode.Initial, GroupMode.Initial)

  // ---------------------------------------------------------------------------
  // List helpers with Python's semantics

  ghost predicate NoDuplicates(xs: seq<string>) {
    forall i, j :: 0 <= i < j < |xs| ==> xs[i] != xs[j]
  }

  /** The position of the first occurrence of `x`. */
  function IndexOf(xs: seq<string>, x: string): (i: nat)
    requires x in xs
    ensures i < |xs| && xs[i] == x && x !in xs[..i]
  {
    if xs[0] == x then 0
    else
      var j := IndexOf(xs[1..], x);
      assert xs[..j + 1] == [xs[0]] + xs[1..][..j];
      j + 1
  }

  /** `list.remove(x)`: the first occurrence of `x` is taken out, everything else
      keeps its relative order. */
  function RemoveFirst(xs: seq<string>, x: string): (r: seq<string>)
    requires x in xs
    ensures r == xs[..IndexOf(xs, x)] + xs[IndexOf(xs, x) + 1..]
  {
    if xs[0] == x then xs[1..]
    else
      var rest := RemoveFirst(xs[1..], x);
      var j := IndexOf(xs[1..], x);
      assert xs[..j + 1] == [xs[0]] + xs[1..][..j];
      assert xs[j + 2..] == xs[1..][j + 1..];
      [xs[0]] + rest
  }

  /** In a list without duplicates, removing `x` removes exactly `x`. */
  lemma RemoveFirstExact(xs: seq<string>, x: string)
    requires x in xs && NoDuplicates(xs)
    ensures NoDuplicates(RemoveFirst(xs, x))
    ensures forall v :: v in RemoveFirst(xs, x) <==> v in xs && v != x
    ensures |RemoveFirst(xs, x)| == |xs| - 1
  {
    RemoveAtExact(xs, IndexOf(xs, x));
  }

  /** Cutting position `i` out of a list without duplicates leaves a list without
      duplicates holding every other element. */
  lemma RemoveAtExact(xs: seq<string>, i: nat)
    requires i < |xs| && NoDuplicates(xs)
    ensures NoDuplicates(xs[..i] + xs[i + 1..])
    ensures forall v :: v in xs[..i] + xs[i + 1..] <==> v in xs && v != xs[i]
    ensures |xs[..i] + xs[i + 1..]| == |xs| - 1
  {
    var r := xs[..i] + xs[i + 1..];
    assert forall k :: 0 <= k < |r| ==> r[k] == (if k < i then xs[k] else xs[k + 1]);
    forall v | v in xs && v != xs[i]
      ensures v in r
    {
      var k :| 0 <= k < |xs| && xs[k] == v;
      assert r[if k < i then k else k - 1] == v;
    }
  }

  // ---------------------------------------------------------------------------
  // The backend's invariant

  /** No word is listed twice, and every listed word is non-empty and already
      stripped, as the add handler stores it. */
  ghost predicate WordsInv(words: seq<string>) {
    NoDuplicates(words) && NonEmptyWords(words) && forall w :: w in words ==> Strip(w) == w
  }

  /** The word list satisfies `WordsInv`, each run flag agrees with its mode
      module's own flag, and the safe-mode session is consistent. */
  ghost predicate Inv(a: State) {
    && WordsInv(a.words)
    && a.safeRunning == a.safe.listening
    && a.groupRunning == a.group.recording
    && SafeMode.SessionInv(a.safe)
  }

  lemma InitialInv()
    ensures Inv(Initial)
  {
  }

  // ---------------------------------------------------------------------------
  // Safe mode handlers

  /** `POST /safe_mode/start`. */
  function StartSafeMode(a: State): (State, RunStatus)
  {
    if a.safeRunning then (a, AlreadyRunning)
    else (a.(safeRunning := true, safe := SafeMode.StartRecording(a.safe)), Started)
  }

  /** `POST /safe_mode/stop`; the third component is the text offered for replay. */
  function StopSafeMode(a: State, c: Collaborators): (State, RunStatus, Option<string>)
    requires NonEmptyWords(a.words)
  {
    if !a.safeRunning then (a, NotRunning, None)
    else
      var stopped := SafeMode.StopRecording(a.safe, a.words, c);
      (a.(safeRunning := false, safe := stopped.session), Stopped, stopped.replay)
  }

  /** Safe mode's background loop consuming frames, censoring against the word list
      as it stands. */
  function ListenSafeMode(a: State, xs: seq<Labeled>, c: Collaborators): State
    requires NonEmptyWords(a.words)
  {
    a.(safe := SafeMode.Listen(a.safe, xs, a.words, c))
  }

  /** `GET /safe_mode/words`. */
  function GetSafeModeWords(a: State): seq<string> {
    a.words
  }

  /** `POST /safe_mode/words`: the word is stripped first; a blank word or one
      already listed (exactly, case-sensitively) is refused with 400 and nothing
      changes; otherwise it is appended at the end. */
  function AddSafeWord(a: State, raw: string): (r: (State, Result<string, HttpError>))
    ensures AllSpace(raw) ==> r == (a, Failure(HttpError(400, "Empty word")))
    ensures !AllSpace(raw) && Strip(raw) in a.words ==> r == (a, Failure(HttpError(400, "Word already exists")))
    ensures !AllSpace(raw) && Strip(raw) !in a.words ==>
      r == (a.(words := a.words + [Strip(raw)]), Success(Strip(raw)))
  {
    StripEmptyIffAllSpace(raw);
    var w := Strip(raw);
    if w == [] then (a, Failure(HttpError(400, "Empty word")))
    else if w in a.words then (a, Failure(HttpError(400, "Word already exists")))
    else (a.(words := a.words + [w]), Success(w))
  }

  /** `DELETE /safe_mode/words/{word}`: an unlisted word is refused with 404 and
      nothing changes; otherwise its first occurrence is removed. */
  function DeleteSafeWord(a: State, word: string): (r: (State, Result<string, HttpError>))
    ensures word !in a.words ==> r == (a, Failure(HttpError(404, "Word not found")))
    ensures word in a.words ==> r == (a.(words := RemoveFirst(a.words, word)), Success(word))
  {
    if word !in a.words then (a, Failure(HttpError(404, "Word not found")))
    else (a.(words := RemoveFirst(a.words, word)), Success(word))
  }

  // ---------------------------------------------------------------------------
  // Group mode handlers

  /** `POST /group_mode/start`: while running, nothing changes (the new parameters
      are ignored); otherwise the parameters are set and recording starts. */
  function StartGroupMode(a: State, p: GroupMode.Params): (State, RunStatus)
  {
    if a.groupRunning then (a, AlreadyRunning)
    else (a.(groupRunning := true, group := GroupMode.StartRecording(GroupMode.SetParameters(a.group, p))), Started)
  }

  /** `POST /group_mode/stop`. */
  function StopGroupMode(a: State): (State, RunStatus)
  {
    if !a.groupRunning then (a, NotRunning)
    else (a.(groupRunning := false, group := GroupMode.StopRecording(a.group)), Stopped)
  }

  /** The body of `GET /status`. */
  datatype StatusReport = StatusReport(safeModeRunning: bool, groupModeRunning: bool, censorWords: seq<string>)

  function Status(a: State): StatusReport {
    StatusReport(a.safeRunning, a.groupRunning, a.words)
  }

  // ---------------------------------------------------------------------------
  // Properties of the handlers

  lemma InvWordsNonEmpty(a: State)
    requires Inv(a)
    ensures NonEmptyWords(a.words)
  {
  }


  lemma AppendFresh(xs: seq<string>, w: string)
    requires NoDuplicates(xs) && w !in xs
    ensures NoDuplicates(xs + [w])
  {
  }

  lemma AddWordKeepsWordsInv(words: seq<string>, raw: string)
    requires WordsInv(words)
    requires Strip(raw) != [] && Strip(raw) !in words
    ensures WordsInv(words + [Strip(raw)])
  {
    StripIdempotent(raw);
    AppendClean(words, Strip(raw));
  }

  lemma AppendClean(words: seq<string>, w: string)
    requires WordsInv(words) && w != [] && Strip(w) == w && w !in words
    ensures WordsInv(words + [w])
  {
    AppendFresh(words, w);
    AppendNonEmpty(words, w);
    AppendStripped(words, w);
  }

  lemma AppendNonEmpty(words: seq<string>, w: string)
    requires NonEmptyWords(words) && w != []
    ensures NonEmptyWords(words + [w])
  {
    var r := words + [w];
    assert forall k :: 0 <= k < |words| ==> r[k] == words[k];
  }

  lemma AppendStripped(words: seq<string>, w: string)
    requires forall v :: v in words ==> Strip(v) == v
    requires Strip(w) == w
    ensures forall v :: v in words + [w] ==> Strip(v) == v
  {
  }

  /** Adding keeps the word list free of duplicates and of blank or unstripped
      entries. */
  lemma AddPreservesInv(a: State, raw: string)
    requires Inv(a)
    ensures Inv(AddSafeWord(a, raw).0)
  {
    StripEmptyIffAllSpace(raw);
    if Strip(raw) != [] && Strip(raw) !in a.words {
      AddWordKeepsWordsInv(a.words, raw);
    }
  }

  lemma RemoveKeepsWordsInv(words: seq<string>, word: string)
    requires WordsInv(words) && word in words
    ensures WordsInv(RemoveFirst(words, word))
  {
    RemoveFirstExact(words, word);
    var r := RemoveFirst(words, word);
    forall k | 0 <= k < |r|
      ensures r[k] != []
    {
      assert r[k] in words;
    }
  }

  /** Deleting keeps the invariant and removes exactly the named word. */
  lemma DeletePreservesInv(a: State, word: string)
    requires Inv(a)
    ensures Inv(DeleteSafeWord(a, word).0)
    ensures forall v :: v in DeleteSafeWord(a, word).0.words <==> v in a.words && v != word
  {
    if word in a.words {
      RemoveFirstExact(a.words, word);
      RemoveKeepsWordsInv(a.words, word);
    }
  }

  /** A request the backend serves: the six endpoints that change state, plus frames
      reaching safe mode's background loop. */
  datatype Request =
    | StartSafe
    | StopSafe
    | AddWord(raw: string)
    | DeleteWord(word: string)
    | StartGroup(params: GroupMode.Params)
    | StopGroup
    | Audio(frames: seq<Labeled>)

  function Handle(a: State, req: Request, c: Collaborators): State
    requires NonEmptyWords(a.words)
  {
    match req
    case StartSafe => StartSafeMode(a).0
    case StopSafe => StopSafeMode(a, c).0
    case AddWord(raw) => AddSafeWord(a, raw).0
    case DeleteWord(word) => DeleteSafeWord(a, word).0
    case StartGroup(p) => StartGroupMode(a, p).0
    case StopGroup => StopGroupMode(a).0
    case Audio(xs) => ListenSafeMode(a, xs, c)
  }

  /** Every request keeps the invariant. */
  lemma HandlePreservesInv(a: State, req: Request, c: Collaborators)
    requires Inv(a)
    ensures Inv(Handle(a, req, c))
  {
    match req
    case StartSafe =>
      SafeMode.StartPreservesInv(a.safe);
    case StopSafe =>
      SafeMode.StopPreservesInv(a.safe, a.words, c);
    case AddWord(raw) =>
      AddPreservesInv(a, raw);
    case DeleteWord(word) =>
      DeletePreservesInv(a, word);
    case StartGroup(p) =>
    case StopGroup =>
    case Audio(xs) =>
      SafeMode.ListenPreservesInv(a.safe, xs, a.words, c);
  }

  /** Serves requests in order. Every state reached satisfies the invariant. */
  function Serve(a: State, reqs: seq<Request>, c: Collaborators): (r: State)
    requires Inv(a)
    ensures Inv(r)
    decreases |reqs|
  {
    if reqs == [] then a
    else
      HandlePreservesInv(a, reqs[0], c);
      Serve(Handle(a, reqs[0], c), reqs[1..], c)
  }

  /** From start-up, whatever the requests, the word list never holds a duplicate or
      a blank entry and the run flags agree with the modes. */
  lemma ReachableInv(reqs: seq<Request>, c: Collaborators)
    ensures Inv(Serve(Initial, reqs, c))
  {
  }

  /** Repeating a start or a stop is a reported no-op, for both modes. */
  lemma GuardsIdempotent(a: State, p: GroupMode.Params, c: Collaborators)
    requires NonEmptyWords(a.words)
    ensures StartSafeMode(StartSafeMode(a).0) == (StartSafeMode(a).0, AlreadyRunning)
    ensures StopSafeMode(StopSafeMode(a, c).0, c) == (StopSafeMode(a, c).0, NotRunning, None)
    ensures StartGroupMode(StartGroupMode(a, p).0, p) == (StartGroupMode(a, p).0, AlreadyRunning)
    ensures StopGroupMode(StopGroupMode(a).0) == (StopGroupMode(a).0, NotRunning)
  {
  }

  /** Every start and stop leaves its mode in the requested state. It answers
      `already_running` exactly when the mode was already running and `not_running`
      exactly when it was not, and in those cases it changed nothing. An actual
      start or stop hands the session or recorder to the mode's own start or stop. */
  lemma ResponsesReportChange(a: State, p: GroupMode.Params, c: Collaborators)
    requires NonEmptyWords(a.words)
    ensures StartSafeMode(a).0.safeRunning
    ensures StartSafeMode(a).1 in {Started, AlreadyRunning}
    ensures StartSafeMode(a).1 == AlreadyRunning <==> a.safeRunning
    ensures StartSafeMode(a).1 == AlreadyRunning <==> StartSafeMode(a).0 == a
    ensures !a.safeRunning ==> StartSafeMode(a).0.safe == SafeMode.StartRecording(a.safe)
    ensures !StopSafeMode(a, c).0.safeRunning
    ensures StopSafeMode(a, c).1 in {Stopped, NotRunning}
    ensures StopSafeMode(a, c).1 == NotRunning <==> !a.safeRunning
    ensures StopSafeMode(a, c).1 == NotRunning <==> StopSafeMode(a, c).0 == a
    ensures StopSafeMode(a, c).1 == NotRunning ==> StopSafeMode(a, c).2 == None
    ensures a.safeRunning ==>
      var stopped := SafeMode.StopRecording(a.safe, a.words, c);
      StopSafeMode(a, c).0.safe == stopped.session && StopSafeMode(a, c).2 == stopped.replay
    ensures StartGroupMode(a, p).0.groupRunning
    ensures StartGroupMode(a, p).1 in {Started, AlreadyRunning}
    ensures StartGroupMode(a, p).1 == AlreadyRunning <==> a.groupRunning
    ensures StartGroupMode(a, p).1 == AlreadyRunning <==> StartGroupMode(a, p).0 == a
    ensures !StopGroupMode(a).0.groupRunning
    ensures StopGroupMode(a).1 in {Stopped, NotRunning}
    ensures StopGroupMode(a).1 == NotRunning <==> !a.groupRunning
    ensures StopGroupMode(a).1 == NotRunning <==> StopGroupMode(a).0 == a
  {
  }

  /** Group mode takes the request's parameters only when it actually starts; a
      start while running ignores them, and stopping keeps them. */
  lemma GroupStartParams(a: State, p: GroupMode.Params)
    requires Inv(a)
    ensures !a.groupRunning ==> StartGroupMode(a, p).0.group == GroupMode.Recorder(true, p)
    ensures a.groupRunning ==> StartGroupMode(a, p).0.group.params == a.group.params
    ensures StopGroupMode(a).0.group == GroupMode.Recorder(false, a.group.params)
  {
  }

  /** The two modes' guards are independent: group-mode requests never touch safe
      mode's flag, session or word list, and safe-mode requests never touch group
      mode's flag or recorder. */
  lemma ModesIndependent(a: State, p: GroupMode.Params, c: Collaborators)
    requires NonEmptyWords(a.words)
    ensures var g := StartGroupMode(a, p).0; g.safeRunning == a.safeRunning && g.safe == a.safe && g.words == a.words
    ensures var g := StopGroupMode(a).0; g.safeRunning == a.safeRunning && g.safe == a.safe && g.words == a.words
    ensures var s := StartSafeMode(a).0; s.groupRunning == a.groupRunning && s.group == a.group && s.words == a.words
    ensures var s := StopSafeMode(a, c).0; s.groupRunning == a.groupRunning && s.group == a.group && s.words == a.words
  {
  }

  /** The status report tells the truth about both modes and lists the words in the
      order they were added. */
  lemma StatusReflectsModes(a: State)
    requires Inv(a)
    ensures Status(a).safeModeRunning == a.safe.listening
    ensures Status(a).groupModeRunning == a.group.recording
    ensures Status(a).censorWords == GetSafeModeWords(a)
  {
  }

  /** A safe-mode session through the API: start, frames, stop. The text offered
      for replay is the space-joined transcriptions, censored against the word list,
      of the utterances segmented from the frames followed by the flushed partial
      utterance. */
  lemma SafeSessionThroughApi(a: State, xs: seq<Labeled>, c: Collaborators)
    requires Inv(a) && !a.safeRunning
    ensures StartSafeMode(a).1 == Started
    ensures var fed := Feed(Idle, xs);
            var texts := SafeMode.TranscribeAll([], fed.1 + SafeMode.Leftover(fed.0), a.words, c);
            var stopped := StopSafeMode(ListenSafeMode(StartSafeMode(a).0, xs, c), c);
            && stopped.1 == Stopped
            && !stopped.0.safeRunning
            && stopped.0.words == a.words
            && stopped.0.safe.captured == texts
            && stopped.2 == (if texts == [] then None else Some(Join(" ", texts)))
  {
    InvWordsNonEmpty(a);
    var fed := Feed(Idle, xs);
    var texts := SafeMode.TranscribeAll([], fed.1 + SafeMode.Leftover(fed.0), a.words, c);
    var session := SafeMode.Listen(SafeMode.StartRecording(a.safe), xs, a.words, c);
    var heard := ListenSafeMode(StartSafeMode(a).0, xs, c);
    assert heard == a.(safeRunning := true, safe := session);
    SafeMode.HearAllIsFeed(SafeMode.StartRecording(a.safe), xs, a.words, c);
    assert session.listening;
    var r := SafeMode.StopRecording(session, a.words, c);
    SafeMode.SessionTranscript(a.safe, xs, a.words, c);
    assert r.session.captured == texts;
    assert StopSafeMode(heard, c) == (heard.(safeRunning := false, safe := r.session), Stopped, r.replay);
  }
}
