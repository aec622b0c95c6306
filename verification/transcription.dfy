/** Safe mode's `transcribe_audio`: pad the utterance to the two-second floor, run
    the speech-to-text collaborator, drop an empty transcript, pass it through the
    optional punctuation collaborator, then censor it. Both collaborators are
    uninterpreted functions supplied by the caller. */
module Transcription {
  import opened Wrappers
  import opened Text
  import opened Audio
  import opened Censor

  /** `samplerate * 2`: the shortest input handed to the speech-to-text model. */
  const MinSamples: nat := SampleRate * 2

  /** Zero-pads `samples` at the end up to `MinSamples`; longer input is untouched. */
  function Pad(samples: seq<Pcm16>): (r: seq<Pcm16>)
    ensures |r| == if |samples| < MinSamples then MinSamples else |samples|
    ensures r[..|samples|] == samples
    ensures forall k :: |samples| <= k < |r| ==> r[k] == 0
  {
    if |samples| < MinSamples then samples + seq(MinSamples - |samples|, _ => 0 as Pcm16)
    else samples
  }

  /** Padding an already padded input changes nothing. */
  lemma PadIdempotent(samples: seq<Pcm16>)
    ensures Pad(Pad(samples)) == Pad(samples)
  {
  }

  /** What asking the punctuation model gives back. `Unconfigured`: no API key or no
      client library, so it is never asked. `Raised`: the call raised. `Reply`: its
      `text` (empty when absent or empty) and, when it has candidates, the texts of
      the first candidate's parts. */
  datatype PunctuationReply =
    | Unconfigured
    | Raised
    | Reply(text: string, firstCandidate: Option<seq<string>>)

  /** The external models: speech-to-text returns its segments' texts; the
      punctuation model answers a prompt. */
  datatype Collaborators = Collaborators(
    transcribe: seq<Pcm16> -> seq<string>,
    punctuate: string -> PunctuationReply)

  /** The instruction sent ahead of the raw transcript. */
  const PunctuationPrompt: string :=
    "DO NOT CHANGE THE WORDS. ONLY ADD PUNCTUATION. If the sentence is more than 5 words add one commas in between the sentence. :\n\n"

  /** The punctuated text: the reply's text, stripped; otherwise the first
      candidate's part texts concatenated and stripped; otherwise the raw text. An
      unconfigured or failing model leaves the raw text as it is. */
  function Punctuated(raw: string, reply: PunctuationReply): (r: string)
    ensures reply.Unconfigured? || reply.Raised? ==> r == raw
    ensures reply.Reply? && reply.text == [] && reply.firstCandidate.None? ==> r == raw
    ensures reply.Reply? && reply.text != [] ==> CutFrom(r, reply.text) && NoOuterSpace(r)
    ensures reply.Reply? && reply.text == [] && reply.firstCandidate.Some? ==>
      CutFrom(r, Concat(reply.firstCandidate.value)) && NoOuterSpace(r)
  {
    match reply
    case Unconfigured => raw
    case Raised => raw
    case Reply(text, firstCandidate) =>
      if text != [] then Strip(text)
      else match firstCandidate
        case Some(parts) => Strip(Concat(parts))
        case None => raw
  }

  /** The stripped, space-joined segment texts of the padded utterance. */
  function RawTranscript(samples: seq<Pcm16>, c: Collaborators): string {
    Strip(Join(" ", c.transcribe(Pad(samples))))
  }

  /** `transcribe_audio(samples)`: `None` exactly when the speech-to-text output is
      blank; otherwise the punctuated, censored text. */
  function Transcribe(samples: seq<Pcm16>, banned: seq<string>, c: Collaborators): (r: Option<string>)
    requires NonEmptyWords(banned)
    ensures r.None? <==> AllSpace(Join(" ", c.transcribe(Pad(samples))))
  {
    StripEmptyIffAllSpace(Join(" ", c.transcribe(Pad(samples))));
    var raw := RawTranscript(samples, c);
    if raw == [] then None
    else Some(CensorText(Punctuated(raw, c.punctuate(PunctuationPrompt + raw)), banned))
  }

  /** With no punctuation model and an empty censor list, a non-blank transcript
      comes back as the stripped speech-to-text output itself. Only the answer to
      the one prompt sent matters. */
  lemma TranscribePassThrough(samples: seq<Pcm16>, c: Collaborators, raw: string)
    requires raw == RawTranscript(samples, c) && raw != []
    requires c.punctuate(PunctuationPrompt + raw) == Unconfigured
    ensures Transcribe(samples, [], c) == Some(raw)
  {
  }

  /** `if result: captured_texts.append(result)`: only a present, non-empty text is
      recorded, at the end. */
  function Record(captured: seq<string>, result: Option<string>): (r: seq<string>)
    ensures result.Some? && result.value != [] ==> r == captured + [result.value]
    ensures result.None? || result.value == [] ==> r == captured
  {
    if result.Some? && result.value != [] then captured + [result.value] else captured
  }

  lemma RecordKeepsNonEmpty(captured: seq<string>, result: Option<string>)
    requires NonEmptyWords(captured)
    ensures NonEmptyWords(Record(captured, result))
    ensures captured <= Record(captured, result)
  {
  }
}
