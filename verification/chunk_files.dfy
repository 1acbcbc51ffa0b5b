/** The two audio-chunking pipelines around the shared detector: the
    threshold taken from the envelope's maximum, the files each chunk is
    written to and the samples it holds. alg_audioChunks.py cuts the
    detector's padded chunks out of the signal; alg_audioChunks2.py widens
    the raw chunks by a start and an end padding given in milliseconds. */
module ChunkFiles {
  import opened Wrappers
  import Text
  import PosixPath
  import Sequences
  import opened ChunkDetection

  /** Defaults of `audio_processing_pipeline` and the command line. */
  const DefaultThresholdPercent: real := 0.05
  const DefaultMinChunkMs: nat := 100
  const DefaultStartPaddingMs: int := 400
  const DefaultEndPaddingMs: int := 1000

  /** One written chunk: the WAV path, the plot path and the samples written. */
  datatype ChunkFile<T> = ChunkFile(wav: string, plot: string, samples: seq<T>)

  /** `np.max` of an empty envelope raises ValueError. */
  datatype PipelineError = EmptyEnvelope

  /** `np.max` of a non-empty envelope. */
  function SeqMax(xs: seq<real>): (m: real)
    requires |xs| > 0
    ensures m in xs
    ensures forall k :: 0 <= k < |xs| ==> xs[k] <= m
  {
    if |xs| == 1 then xs[0]
    else var m := SeqMax(xs[1..]); if xs[0] >= m then xs[0] else m
  }

  /** `f'{file_name}_chunk{idx + 1}{ext}'`: chunks are numbered from 1. */
  function ChunkName(fileName: string, idx: nat, ext: string): string
  {
    fileName + "_chunk" + Text.NatToString(idx + 1) + ext
  }

  /** Chunk names of one file and one extension never collide. */
  lemma ChunkNamesDistinct(fileName: string, a: nat, b: nat, ext: string)
    requires a != b
    ensures ChunkName(fileName, a, ext) != ChunkName(fileName, b, ext)
  {
    var pre := fileName + "_chunk";
    var na, nb := Text.NatToString(a + 1), Text.NatToString(b + 1);
    var sa, sb := ChunkName(fileName, a, ext), ChunkName(fileName, b, ext);
    assert sa == pre + na + ext;
    assert sb == pre + nb + ext;
    if sa == sb {
      assert |na| == |nb|;
      assert sa[|pre|..|pre| + |na|] == na;
      assert sb[|pre|..|pre| + |nb|] == nb;
      Text.NatToStringInjective(a + 1, b + 1);
    }
  }

  /** A chunk name holds no separator when the file name and extension hold none. */
  lemma ChunkNameSeparatorFree(fileName: string, idx: nat, ext: string)
    requires PosixPath.Sep !in fileName && PosixPath.Sep !in ext
    ensures PosixPath.Sep !in ChunkName(fileName, idx, ext)
  {
    var digits := Text.NatToString(idx + 1);
    assert PosixPath.Sep !in digits;
    assert ChunkName(fileName, idx, ext) == fileName + "_chunk" + digits + ext;
  }

  /** `save_audio_chunks`: chunk `k` holds `signal[w.0:w.1]` for its slice
      window `w` and is written to `{file_name}_chunk{k + 1}.wav` with its plot
      in the matching `.png`, both in the output directory. */
  function Save<T>(signal: seq<T>, windows: seq<(int, int)>, fileName: string, outDir: string): seq<ChunkFile<T>>
  {
    seq(|windows|, k requires 0 <= k < |windows| =>
      ChunkFile(PosixPath.Join(outDir, ChunkName(fileName, k, ".wav")),
                PosixPath.Join(outDir, ChunkName(fileName, k, ".png")),
                Sequences.PySlice(signal, windows[k].0, windows[k].1)))
  }

  /** No two written files share a path: WAV paths are pairwise distinct,
      plot paths are pairwise distinct and no WAV path is a plot path. */
  lemma SavedPathsDistinct<T>(signal: seq<T>, windows: seq<(int, int)>, fileName: string, outDir: string)
    requires PosixPath.Sep !in fileName
    ensures forall a, b :: 0 <= a < b < |windows| ==>
      Save(signal, windows, fileName, outDir)[a].wav != Save(signal, windows, fileName, outDir)[b].wav
      && Save(signal, windows, fileName, outDir)[a].plot != Save(signal, windows, fileName, outDir)[b].plot
    ensures forall a, b :: 0 <= a < |windows| && 0 <= b < |windows| ==>
      Save(signal, windows, fileName, outDir)[a].wav != Save(signal, windows, fileName, outDir)[b].plot
  {
    var files := Save(signal, windows, fileName, outDir);
    forall a, b | 0 <= a < b < |files|
      ensures files[a].wav != files[b].wav && files[a].plot != files[b].plot
    {
      ChunkNamesDistinct(fileName, a, b, ".wav");
      ChunkNamesDistinct(fileName, a, b, ".png");
      ChunkNameSeparatorFree(fileName, a, ".wav");
      ChunkNameSeparatorFree(fileName, b, ".wav");
      ChunkNameSeparatorFree(fileName, a, ".png");
      ChunkNameSeparatorFree(fileName, b, ".png");
      if files[a].wav == files[b].wav {
        PosixPath.JoinInjective(outDir, ChunkName(fileName, a, ".wav"), ChunkName(fileName, b, ".wav"));
      }
      if files[a].plot == files[b].plot {
        PosixPath.JoinInjective(outDir, ChunkName(fileName, a, ".png"), ChunkName(fileName, b, ".png"));
      }
    }
    forall a, b | 0 <= a < |files| && 0 <= b < |files|
      ensures files[a].wav != files[b].plot
    {
      var wa, pb := ChunkName(fileName, a, ".wav"), ChunkName(fileName, b, ".png");
      ChunkNameSeparatorFree(fileName, a, ".wav");
      ChunkNameSeparatorFree(fileName, b, ".png");
      assert wa[|wa| - 1] == 'v' && pb[|pb| - 1] == 'g';
      if files[a].wav == files[b].plot {
        PosixPath.JoinInjective(outDir, wa, pb);
      }
    }
  }

  /** `os.path.splitext(os.path.basename(input_file))[0]`. */
  function FileNameOf(inputFile: string): (f: string)
    ensures PosixPath.Sep !in f
  {
    var base := PosixPath.Basename(inputFile);
    var f := PosixPath.Stem(base);
    assert forall c :: c in f ==> c in base;
    f
  }

  /** alg_audioChunks.py `audio_processing_pipeline` after loading and
      smoothing: threshold at `percent` of the envelope maximum, detect padded
      chunks and save each as cut from the signal. */
  function PaddedPipeline<T>(inputFile: string, outDir: string, signal: seq<T>, env: seq<real>,
                             sr: nat, percent: real, minMs: nat): (r: Result<seq<ChunkFile<T>>, PipelineError>)
    ensures r.Err? <==> |env| == 0
  {
    if |env| == 0 then Err(EmptyEnvelope)
    else Ok(Save(signal, DetectPadded(env, percent * SeqMax(env), sr, minMs), FileNameOf(inputFile), outDir))
  }

  /** Each file holds exactly the signal over its window, which lies inside
      the signal. */
  ghost predicate CutFrom<T>(signal: seq<T>, windows: seq<(int, int)>, files: seq<ChunkFile<T>>)
  {
    && |files| == |windows|
    && forall k :: 0 <= k < |windows| ==>
         0 <= windows[k].0 <= windows[k].1 <= |signal| && files[k].samples == signal[windows[k].0..windows[k].1]
  }

  /** No two files share a path. */
  predicate PathsDistinct<T>(files: seq<ChunkFile<T>>)
  {
    && (forall a, b :: 0 <= a < b < |files| ==> files[a].wav != files[b].wav && files[a].plot != files[b].plot)
    && (forall a, b :: 0 <= a < |files| && 0 <= b < |files| ==> files[a].wav != files[b].plot)
  }

  /** Saving windows that lie inside the signal cuts exactly those windows out. */
  lemma SaveCuts<T>(signal: seq<T>, windows: seq<(int, int)>, fileName: string, outDir: string)
    requires forall k :: 0 <= k < |windows| ==> 0 <= windows[k].0 <= windows[k].1 <= |signal|
    requires PosixPath.Sep !in fileName
    ensures CutFrom(signal, windows, Save(signal, windows, fileName, outDir))
    ensures PathsDistinct(Save(signal, windows, fileName, outDir))
  {
    SavedPathsDistinct(signal, windows, fileName, outDir);
  }

  /** For an envelope as long as the signal (the rolling means keep the
      length), the padded pipeline writes each detected chunk as the stretch
      of the signal it spans, under paths no two files share. */
  lemma PaddedPipelineFacts<T>(inputFile: string, outDir: string, signal: seq<T>, env: seq<real>,
                               sr: nat, percent: real, minMs: nat)
    requires |env| == |signal| > 0
    ensures PaddedPipeline(inputFile, outDir, signal, env, sr, percent, minMs).Ok?
    ensures CutFrom(signal, DetectPadded(env, percent * SeqMax(env), sr, minMs),
                    PaddedPipeline(inputFile, outDir, signal, env, sr, percent, minMs).value)
    ensures PathsDistinct(PaddedPipeline(inputFile, outDir, signal, env, sr, percent, minMs).value)
  {
    var chunks := DetectPadded(env, percent * SeqMax(env), sr, minMs);
    DetectPaddedFacts(env, percent * SeqMax(env), sr, minMs);
    forall k | 0 <= k < |chunks| ensures 0 <= chunks[k].0 <= chunks[k].1 <= |signal| {
      assert chunks[k] in chunks;
    }
    SaveCuts(signal, chunks, FileNameOf(inputFile), outDir);
  }

  /** alg_audioChunks2.py: the slice window of a raw chunk, moved back by the
      start padding but not below 0 and on by the end padding but not past
      the signal. */
  function Widen(n: nat, startPad: int, endPad: int, c: (int, int)): (int, int)
  {
    (Max(0, c.0 - startPad), Min(n, c.1 + endPad))
  }

  /** With non-negative paddings the window stays in the signal and contains
      the chunk, and each edge moves by exactly its padding unless clamped. */
  lemma WidenContains(n: nat, startPad: int, endPad: int, c: (int, int))
    requires 0 <= startPad && 0 <= endPad && 0 <= c.0 <= c.1 <= n
    ensures var w := Widen(n, startPad, endPad, c);
      && 0 <= w.0 <= c.0 <= c.1 <= w.1 <= n
      && (w.0 == 0 || c.0 - w.0 == startPad)
      && (w.1 == n || w.1 - c.1 == endPad)
  {
  }

  function WidenAll(n: nat, startPad: int, endPad: int, chunks: seq<(int, int)>): seq<(int, int)>
  {
    seq(|chunks|, k requires 0 <= k < |chunks| => Widen(n, startPad, endPad, chunks[k]))
  }

  /** alg_audioChunks2.py `audio_processing_pipeline` after loading and
      smoothing: threshold, raw detection, and each chunk saved with
      int(sr * ms / 1000)-sample start and end paddings. */
  function RawPipeline<T>(inputFile: string, outDir: string, signal: seq<T>, env: seq<real>,
                          sr: nat, percent: real, minMs: nat, startPadMs: int, endPadMs: int)
    : (r: Result<seq<ChunkFile<T>>, PipelineError>)
    ensures r.Err? <==> |env| == 0
  {
    if |env| == 0 then Err(EmptyEnvelope)
    else Ok(Save(signal, RawWindows(signal, env, sr, percent, minMs, startPadMs, endPadMs), FileNameOf(inputFile), outDir))
  }

  /** The slice windows alg_audioChunks2.py cuts: the raw chunks widened by
      int(sr * ms / 1000) samples at each end. */
  function RawWindows<T>(signal: seq<T>, env: seq<real>, sr: nat, percent: real, minMs: nat,
                         startPadMs: int, endPadMs: int): seq<(int, int)>
    requires |env| > 0
  {
    WidenAll(|signal|, MsToSamples(sr, startPadMs), MsToSamples(sr, endPadMs),
             DetectRaw(env, percent * SeqMax(env), sr, minMs))
  }

  /** Each window lies inside the signal and holds its chunk. */
  predicate Covers(n: nat, windows: seq<(int, int)>, chunks: seq<(int, int)>)
  {
    && |windows| == |chunks|
    && forall k :: 0 <= k < |chunks| ==> 0 <= windows[k].0 <= chunks[k].0 <= chunks[k].1 <= windows[k].1 <= n
  }

  /** Widening chunks that lie in the signal by non-negative paddings covers them. */
  lemma WidenAllCovers(n: nat, startPad: int, endPad: int, chunks: seq<(int, int)>)
    requires 0 <= startPad && 0 <= endPad
    requires forall k :: 0 <= k < |chunks| ==> 0 <= chunks[k].0 <= chunks[k].1 <= n
    ensures Covers(n, WidenAll(n, startPad, endPad, chunks), chunks)
  {
    forall k | 0 <= k < |chunks|
      ensures 0 <= WidenAll(n, startPad, endPad, chunks)[k].0 <= chunks[k].0
      ensures chunks[k].1 <= WidenAll(n, startPad, endPad, chunks)[k].1 <= n
    {
      WidenContains(n, startPad, endPad, chunks[k]);
    }
  }

  /** A window cut from the signal holds the chunk it covers at the window's offset. */
  lemma CoveredChunkInside<T>(signal: seq<T>, w: (int, int), c: (int, int))
    requires 0 <= w.0 <= c.0 <= c.1 <= w.1 <= |signal|
    ensures signal[w.0..w.1][c.0 - w.0..c.1 - w.0] == signal[c.0..c.1]
  {
    var cut := signal[w.0..w.1];
    forall i | 0 <= i < c.1 - c.0 ensures cut[c.0 - w.0..c.1 - w.0][i] == signal[c.0..c.1][i] {
      assert cut[c.0 - w.0 + i] == signal[c.0 + i];
    }
  }

  /** For an envelope as long as the signal and non-negative paddings, the
      raw pipeline writes each detected chunk as a stretch of the signal that
      covers it, under paths no two files share. */
  lemma RawPipelineFacts<T>(inputFile: string, outDir: string, signal: seq<T>, env: seq<real>,
                            sr: nat, percent: real, minMs: nat, startPadMs: int, endPadMs: int)
    requires |env| == |signal| > 0
    requires startPadMs >= 0 && endPadMs >= 0
    ensures RawPipeline(inputFile, outDir, signal, env, sr, percent, minMs, startPadMs, endPadMs).Ok?
    ensures Covers(|signal|, RawWindows(signal, env, sr, percent, minMs, startPadMs, endPadMs),
                   DetectRaw(env, percent * SeqMax(env), sr, minMs))
    ensures CutFrom(signal, RawWindows(signal, env, sr, percent, minMs, startPadMs, endPadMs),
                    RawPipeline(inputFile, outDir, signal, env, sr, percent, minMs, startPadMs, endPadMs).value)
    ensures PathsDistinct(RawPipeline(inputFile, outDir, signal, env, sr, percent, minMs, startPadMs, endPadMs).value)
  {
    var chunks := DetectRaw(env, percent * SeqMax(env), sr, minMs);
    DetectRawFacts(env, percent * SeqMax(env), sr, minMs);
    forall k | 0 <= k < |chunks| ensures 0 <= chunks[k].0 <= chunks[k].1 <= |signal| {
      assert chunks[k] in chunks;
    }
    var windows := WidenAll(|signal|, MsToSamples(sr, startPadMs), MsToSamples(sr, endPadMs), chunks);
    WidenAllCovers(|signal|, MsToSamples(sr, startPadMs), MsToSamples(sr, endPadMs), chunks);
    SaveCuts(signal, windows, FileNameOf(inputFile), outDir);
    assert RawPipeline(inputFile, outDir, signal, env, sr, percent, minMs, startPadMs, endPadMs)
           == Ok(Save(signal, windows, FileNameOf(inputFile), outDir));
  }

  /** The main block of alg_audioChunks.py: the pipeline at its defaults. */
  function PaddedMain<T>(inputFile: string, outDir: string, signal: seq<T>, env: seq<real>, sr: nat)
    : (r: Result<seq<ChunkFile<T>>, PipelineError>)
    ensures r.Err? <==> |env| == 0
  {
    PaddedPipeline(inputFile, outDir, signal, env, sr, DefaultThresholdPercent, DefaultMinChunkMs)
  }

  /** The main block of alg_audioChunks2.py: the start and end paddings are
      the third and fourth command-line arguments when given, else the
      defaults. */
  function RawMain<T>(inputFile: string, outDir: string, signal: seq<T>, env: seq<real>, sr: nat,
                      startArg: Option<int>, endArg: Option<int>): (r: Result<seq<ChunkFile<T>>, PipelineError>)
    ensures r.Err? <==> |env| == 0
  {
    RawPipeline(inputFile, outDir, signal, env, sr, DefaultThresholdPercent, DefaultMinChunkMs,
                if startArg.Some? then startArg.value else DefaultStartPaddingMs,
                if endArg.Some? then endArg.value else DefaultEndPaddingMs)
  }

  /** Without padding arguments the second script detects at 5% of the
      maximum with a 100 ms minimum and widens by 400 ms before and 1000 ms
      after, so each file covers its chunk. */
  lemma RawMainDefaults<T>(inputFile: string, outDir: string, signal: seq<T>, env: seq<real>, sr: nat)
    requires |env| == |signal| > 0
    ensures RawMain(inputFile, outDir, signal, env, sr, None, None).Ok?
    ensures Covers(|signal|, RawWindows(signal, env, sr, DefaultThresholdPercent, DefaultMinChunkMs, DefaultStartPaddingMs, DefaultEndPaddingMs),
                   DetectRaw(env, DefaultThresholdPercent * SeqMax(env), sr, DefaultMinChunkMs))
    ensures CutFrom(signal, RawWindows(signal, env, sr, DefaultThresholdPercent, DefaultMinChunkMs, DefaultStartPaddingMs, DefaultEndPaddingMs),
                    RawMain(inputFile, outDir, signal, env, sr, None, None).value)
  {
    RawPipelineFacts(inputFile, outDir, signal, env, sr, DefaultThresholdPercent, DefaultMinChunkMs,
                     DefaultStartPaddingMs, DefaultEndPaddingMs);
  }
}
