/** Audio representation of safe mode: 16 kHz mono, 30 ms frames of 16-bit PCM. */
module Audio {

  /** One 16-bit PCM sample, the value `np.int16` holds. */
  newtype Pcm16 = x: int | -32768 <= x < 32768

  /** One frame of samples as the microphone callback delivers it. */
  type Frame = seq<Pcm16>

  const SampleRate: nat := 16000

  /** The samples of consecutive frames, in order: joining the frames' PCM bytes
      and reading them back as 16-bit samples. */
  function Flatten(frames: seq<Frame>): seq<Pcm16>
  {
    if frames == [] then [] else frames[0] + Flatten(frames[1..])
  }

  /** Flattening distributes over concatenation of frame lists. */
  lemma {:induction false} FlattenAppend(a: seq<Frame>, b: seq<Frame>)
    ensures Flatten(a + b) == Flatten(a) + Flatten(b)
  {
    if a != [] {
      assert (a + b)[0] == a[0];
      assert (a + b)[1..] == a[1..] + b;
      FlattenAppend(a[1..], b);
    } else {
      assert a + b == b;
    }
  }
}
