/** Group mode: its parameters, its idempotent start/stop guard, and the SoundStretch
    command line it builds. Recording, the subprocess, file I/O, volume clipping and
    playback are outside the model. */
module GroupMode {
  import opened Wrappers
  import opened Text

  /** `params`: pitch shift in semitones, volume factor, speed factor. */
  datatype Params = Params(pitch: real, volume: real, speed: real)

  /** The parameters at import time. */
  const DefaultParams := Params(-2.0, 1.0, 1.0)

  /** `is_recording` and `params`. */
  datatype Recorder = Recorder(recording: bool, params: Params)

  const Initial := Recorder(false, DefaultParams)

  /** The raw recording and the SoundStretch output. */
  const TempFile := "recorded.wav"
  const ProcessedFile := "processed.wav"

  /** `set_parameters`: all three parameters are replaced at once, nothing else. */
  function SetParameters(r: Recorder, p: Params): (r': Recorder)
    ensures r'.params == p
    ensures r'.recording == r.recording
  {
    Recorder(r.recording, p)
  }

  /** `start_recording`: a no-op while recording, otherwise recording begins with the
      parameters unchanged. */
  function StartRecording(r: Recorder): (r': Recorder)
    ensures r.recording ==> r' == r
    ensures r'.recording && r'.params == r.params
  {
    if r.recording then r else Recorder(true, r.params)
  }

  /** `stop_recording`: a no-op when not recording, otherwise recording ends with the
      parameters unchanged. */
  function StopRecording(r: Recorder): (r': Recorder)
    ensures !r.recording ==> r' == r
    ensures !r'.recording && r'.params == r.params
  {
    if r.recording then Recorder(false, r.params) else r
  }

  lemma GuardsIdempotent(r: Recorder)
    ensures StartRecording(StartRecording(r)) == StartRecording(r)
    ensures StopRecording(StopRecording(r)) == StopRecording(r)
  {
  }

  /** The fixed head of every SoundStretch command. */
  function CommandHead(inputFile: string, outputFile: string): seq<string> {
    ["soundstretch", inputFile, outputFile, "-speech"]
  }

  const PitchFlag := "-pitch="
  const TempoFlag := "-tempo="

  /** `arg` is the option `flag` with some value. */
  predicate IsOption(arg: string, flag: string) {
    |flag| <= |arg| && arg[..|flag|] == flag
  }

  /** `process_with_soundstretch`'s argument list. `formatPitch` is Python's `str` of
      the pitch value; `tempoPercent` is `int((speed - 1.0) * 100)` as computed by
      the caller. A pitch option appears exactly when the pitch is non-zero, a tempo
      option exactly when the speed is not 1, and the tempo option comes last. */
  function SoundStretchCommand(inputFile: string, outputFile: string, semitones: real, speed: real,
                               tempoPercent: int, formatPitch: real -> string): (cmd: seq<string>)
    ensures 4 <= |cmd| <= 6
    ensures cmd[..4] == CommandHead(inputFile, outputFile)
    ensures |cmd| == 4 + (if semitones != 0.0 then 1 else 0) + (if speed != 1.0 then 1 else 0)
    ensures semitones != 0.0 ==> cmd[4] == PitchFlag + formatPitch(semitones)
    ensures speed != 1.0 ==> cmd[|cmd| - 1] == TempoFlag + DecimalOf(tempoPercent)
    ensures forall k :: 4 <= k < |cmd| ==> (IsOption(cmd[k], PitchFlag) <==> k == 4 && semitones != 0.0)
    ensures forall k :: 4 <= k < |cmd| ==> (IsOption(cmd[k], TempoFlag) <==> k == |cmd| - 1 && speed != 1.0)
  {
    var pitch := if semitones != 0.0 then [PitchFlag + formatPitch(semitones)] else [];
    var tempo := if speed != 1.0 then [TempoFlag + DecimalOf(tempoPercent)] else [];
    assert (PitchFlag + formatPitch(semitones))[..|TempoFlag|] == PitchFlag;
    assert (TempoFlag + DecimalOf(tempoPercent))[..|PitchFlag|] == TempoFlag;
    CommandHead(inputFile, outputFile) + pitch + tempo
  }

  /** The value of a tempo option. */
  function TempoValue(arg: string): Option<int>
    requires IsOption(arg, TempoFlag)
  {
    ParseDecimal(arg[|TempoFlag|..])
  }

  /** The tempo option carries the caller's percentage, readable back exactly. */
  lemma TempoRoundTrip(inputFile: string, outputFile: string, semitones: real, speed: real,
                       tempoPercent: int, formatPitch: real -> string)
    requires speed != 1.0
    ensures var cmd := SoundStretchCommand(inputFile, outputFile, semitones, speed, tempoPercent, formatPitch);
            IsOption(cmd[|cmd| - 1], TempoFlag) && TempoValue(cmd[|cmd| - 1]) == Some(tempoPercent)
  {
    var cmd := SoundStretchCommand(inputFile, outputFile, semitones, speed, tempoPercent, formatPitch);
    assert cmd[|cmd| - 1][|TempoFlag|..] == DecimalOf(tempoPercent);
    DecimalRoundTrip(tempoPercent);
  }

  /** The command the recording thread runs on the raw recording once stopped. */
  function ProcessingCommand(r: Recorder, tempoPercent: int, formatPitch: real -> string): (cmd: seq<string>)
    ensures 4 <= |cmd|
    ensures cmd[..4] == ["soundstretch", TempFile, ProcessedFile, "-speech"]
  {
    SoundStretchCommand(TempFile, ProcessedFile, r.params.pitch, r.params.speed, tempoPercent, formatPitch)
  }
}
