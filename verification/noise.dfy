/** The two noise-adding scripts: alg_addSpeechOrCrowdNoise.py tiles or trims
    a recorded noise to the signal's length and adds it at 5% volume;
    alg_addImpulseNoise.py scatters +1/-1 impulses at random positions and adds
    them at 1% volume. Samples are exact reals; the random draws are inputs. */
module Noise {
  import opened Wrappers
  import PosixPath

  /** Volume factors applied to the noise before it is added. */
  const SpeechNoiseLevel: real := 0.05
  const ImpulseNoiseLevel: real := 0.01

  /** Default impulse count of `generate_impulse_noise`. */
  const DefaultImpulses: nat := 500

  /** Output file-name prefixes. */
  const SpeechNoisePrefix := "added_speech_noise_"
  const ImpulseNoisePrefix := "added_impulse_noise_"

  /** `target_length // len(noise)` on an empty noise, and `randint(0, 0, n)`. */
  datatype NoiseError = ZeroDivision | EmptyDrawRange

  /** `np.tile(noise, count)`: `count` copies of `noise`, one after another. */
  function Tile<T>(noise: seq<T>, count: nat): seq<T>
    decreases count
  {
    if count == 0 then [] else Tile(noise, count - 1) + noise
  }

  /** The tiled sequence, sample by sample: position i holds the noise sample
      at i modulo the noise length. */
  lemma {:induction false} TileAt<T>(noise: seq<T>, count: nat)
    requires |noise| > 0
    ensures |Tile(noise, count)| == count * |noise|
    ensures forall i :: 0 <= i < |Tile(noise, count)| ==> Tile(noise, count)[i] == noise[i % |noise|]
    decreases count
  {
    if count > 0 {
      TileAt(noise, count - 1);
      var m := |noise|;
      var prev := Tile(noise, count - 1);
      assert |prev| == (count - 1) * m;
      forall i | 0 <= i < |Tile(noise, count)| ensures Tile(noise, count)[i] == noise[i % m] {
        if i >= |prev| {
          var j := i - |prev|;
          assert 0 <= j < m;
          ModUnique(i, m, count - 1, j);
        }
      }
    }
  }

  lemma {:induction false} MulAtLeast(d: int, m: nat)
    requires d >= 1
    ensures d * m >= m
    decreases d
  {
    if d > 1 {
      MulAtLeast(d - 1, m);
      assert d * m == (d - 1) * m + m;
    }
  }

  /** A remainder in [0, m) after whole blocks of m is the remainder modulo m. */
  lemma ModUnique(x: int, m: nat, q: int, r: int)
    requires m > 0 && 0 <= r < m && x == q * m + r
    ensures x % m == r
  {
    var q', r' := x / m, x % m;
    assert x == q' * m + r';
    assert (q - q') * m == r' - r;
    if q > q' {
      MulAtLeast(q - q', m);
    } else if q < q' {
      MulAtLeast(q' - q, m);
    }
  }

  /** `adjust_noise_length`: repeat a short noise `len // len(noise) + 1` times,
      then keep the first `target` samples. An empty noise with a positive
      target divides by zero. */
  function AdjustNoiseLength<T>(noise: seq<T>, target: nat): Result<seq<T>, NoiseError>
  {
    if |noise| < target then
      if |noise| == 0 then Err(ZeroDivision)
      else
        var tiled := Tile(noise, target / |noise| + 1);
        TileCovers(noise, target);
        Ok(tiled[..target])
    else Ok(noise[..target])
  }

  /** The repeat count `len // len(noise) + 1` always reaches the target. */
  lemma TileCovers<T>(noise: seq<T>, target: nat)
    requires |noise| > 0
    ensures target <= |Tile(noise, target / |noise| + 1)|
  {
    var m := |noise|;
    var q := target / m;
    TileAt(noise, q + 1);
    assert target == q * m + target % m;
    assert (q + 1) * m == q * m + m;
  }

  /** The adjusted noise fails exactly for an empty noise and a positive
      target; otherwise it has the target length and repeats the noise
      cyclically, which for a long enough noise is its prefix. */
  lemma AdjustNoiseLengthFacts<T>(noise: seq<T>, target: nat)
    ensures AdjustNoiseLength(noise, target).Err? <==> |noise| == 0 && target > 0
    ensures AdjustNoiseLength(noise, target).Ok? ==>
      var r := AdjustNoiseLength(noise, target).value;
      && |r| == target
      && (forall i :: 0 <= i < target ==> r[i] == noise[i % |noise|])
      && (|noise| >= target ==> r == noise[..target])
  {
    if |noise| < target && |noise| > 0 {
      TileCovers(noise, target);
      TileAt(noise, target / |noise| + 1);
    } else if |noise| >= target {
      forall i | 0 <= i < target ensures noise[..target][i] == noise[i % |noise|] {
        assert i % |noise| == i;
      }
    }
  }

  /** `y + noise * level`, sample by sample, for sequences of equal length. */
  function AddScaled(y: seq<real>, noise: seq<real>, level: real): (r: seq<real>)
    requires |noise| == |y|
    ensures |r| == |y|
  {
    seq(|y|, i requires 0 <= i < |y| => y[i] + noise[i] * level)
  }

  /** `os.path.join(output_dir, prefix + os.path.basename(input_file))`. */
  function OutputPath(outDir: string, prefix: string, inputFile: string): string
  {
    PosixPath.Join(outDir, prefix + PosixPath.Basename(inputFile))
  }

  /** The output's own name is the prefix followed by the input's name, so
      inputs with different names never share an output in one directory. */
  lemma OutputPathName(outDir: string, prefix: string, inputFile: string)
    requires PosixPath.Sep !in prefix
    ensures PosixPath.Basename(OutputPath(outDir, prefix, inputFile)) == prefix + PosixPath.Basename(inputFile)
  {
    PosixPath.BasenameOfJoin(outDir, prefix + PosixPath.Basename(inputFile));
  }

  /** Inputs with different base names get different output paths. */
  lemma OutputPathInjective(outDir: string, prefix: string, a: string, b: string)
    requires PosixPath.Sep !in prefix
    requires PosixPath.Basename(a) != PosixPath.Basename(b)
    ensures OutputPath(outDir, prefix, a) != OutputPath(outDir, prefix, b)
  {
    OutputPathName(outDir, prefix, a);
    OutputPathName(outDir, prefix, b);
    var na, nb := prefix + PosixPath.Basename(a), prefix + PosixPath.Basename(b);
    assert na[|prefix|..] == PosixPath.Basename(a);
    assert nb[|prefix|..] == PosixPath.Basename(b);
  }

  /** The three plots `plot_and_save` writes for a noise type. */
  function PlotPaths(outDir: string, noiseType: string): seq<string>
  {
    [PosixPath.Join(outDir, "original_signal_" + noiseType + ".png"),
     PosixPath.Join(outDir, "noisy_signal_" + noiseType + ".png"),
     PosixPath.Join(outDir, "comparison_signal_" + noiseType + ".png")]
  }

  /** What a run writes: the noisy audio, its path, and the plot paths. */
  datatype NoisyOutput = NoisyOutput(path: string, audio: seq<real>, plots: seq<string>)

  /** `run_add_speech_noise` after loading: the loaded noise samples fitted to
      the signal, scaled to 5% and added. */
  function AddSpeechNoise(inputFile: string, outDir: string, y: seq<real>, noise: seq<real>): (r: Result<NoisyOutput, NoiseError>)
  {
    match AdjustNoiseLength(noise, |y|)
    case Err(e) => Err(e)
    case Ok(fitted) =>
      AdjustNoiseLengthFacts(noise, |y|);
      Ok(NoisyOutput(OutputPath(outDir, SpeechNoisePrefix, inputFile), AddScaled(y, fitted, SpeechNoiseLevel),
                     PlotPaths(outDir, "speech")))
  }

  /** Speech noise fails only for an empty noise file and a non-empty signal;
      otherwise every sample gains 5% of the noise sample at its position
      modulo the noise length, and the output keeps the input's name behind
      the prefix. */
  lemma AddSpeechNoiseFacts(inputFile: string, outDir: string, y: seq<real>, noise: seq<real>)
    ensures AddSpeechNoise(inputFile, outDir, y, noise).Err? <==> |noise| == 0 && |y| > 0
    ensures AddSpeechNoise(inputFile, outDir, y, noise).Ok? ==>
      var out := AddSpeechNoise(inputFile, outDir, y, noise).value;
      && |out.audio| == |y|
      && (forall i :: 0 <= i < |y| ==> out.audio[i] == y[i] + noise[i % |noise|] * SpeechNoiseLevel)
      && PosixPath.Basename(out.path) == SpeechNoisePrefix + PosixPath.Basename(inputFile)
  {
    AdjustNoiseLengthFacts(noise, |y|);
    OutputPathName(outDir, SpeechNoisePrefix, inputFile);
  }

  /** The random draws of `generate_impulse_noise`: `randint(0, size, n)`
      positions and `choice([1, -1], n)` signs. */
  datatype Draws = Draws(positions: seq<int>, signs: seq<int>)

  /** Draws as numpy produces them for `size` and `n` impulses. */
  predicate ValidDraws(size: nat, n: nat, d: Draws)
  {
    && |d.positions| == n && |d.signs| == n
    && (forall k :: 0 <= k < n ==> 0 <= d.positions[k] < size)
    && (forall k :: 0 <= k < n ==> d.signs[k] == 1 || d.signs[k] == -1)
  }

  /** Index of the last draw that hits position j, if any. */
  function LastHit(positions: seq<int>, j: int): (r: Option<nat>)
    ensures r.None? ==> forall k :: 0 <= k < |positions| ==> positions[k] != j
    ensures r.Some? ==> (r.value < |positions| && positions[r.value] == j
      && forall k :: r.value < k < |positions| ==> positions[k] != j)
  {
    if |positions| == 0 then None
    else if positions[|positions| - 1] == j then Some(|positions| - 1)
    else LastHit(positions[..|positions| - 1], j)
  }

  /** The impulse at position j: the sign of the last draw that hits it, 0 if none does. */
  function ImpulseAt(d: Draws, j: int): int
    requires |d.positions| == |d.signs|
  {
    match LastHit(d.positions, j)
    case None => 0
    case Some(k) => d.signs[k]
  }

  /** `impulse_noise[positions] = signs` on zeros: each position holds the
      sign of the last draw that hits it (numpy's fancy assignment writes in
      order), and 0 where no draw hits. */
  method Scatter(size: nat, d: Draws) returns (noise: seq<int>)
    requires |d.positions| == |d.signs|
    requires forall k :: 0 <= k < |d.positions| ==> 0 <= d.positions[k] < size
    ensures |noise| == size
    ensures forall j :: 0 <= j < size ==> noise[j] == ImpulseAt(d, j)
  {
    noise := seq(size, _ => 0);
    var k := 0;
    while k < |d.positions|
      invariant 0 <= k <= |d.positions|
      invariant |noise| == size
      invariant forall j :: 0 <= j < size ==>
        noise[j] == match LastHit(d.positions[..k], j) case None => 0 case Some(h) => d.signs[h]
    {
      var p := d.positions[k];
      noise := noise[p := d.signs[k]];
      forall j | 0 <= j < size
        ensures noise[j] == match LastHit(d.positions[..k + 1], j) case None => 0 case Some(h) => d.signs[h]
      {
        assert d.positions[..k + 1][..k] == d.positions[..k];
      }
      k := k + 1;
    }
    assert d.positions[..k] == d.positions;
  }

  /** `generate_impulse_noise(size, n)`: zeros with the drawn impulses; a
      zero size leaves `randint` no range to draw from. */
  method GenerateImpulseNoise(size: nat, n: nat, d: Draws) returns (r: Result<seq<int>, NoiseError>)
    requires size > 0 ==> ValidDraws(size, n, d)
    ensures r.Err? <==> size == 0
    ensures r.Ok? ==> |r.value| == size
    ensures r.Ok? ==> forall j :: 0 <= j < size ==> r.value[j] == ImpulseAt(d, j)
    ensures r.Ok? ==> forall j :: 0 <= j < size ==> r.value[j] in {-1, 0, 1}
    ensures r.Ok? ==> forall j :: 0 <= j < size ==>
      (r.value[j] != 0 <==> exists k :: 0 <= k < n && d.positions[k] == j)
  {
    if size == 0 {
      return Err(EmptyDrawRange);
    }
    var noise := Scatter(size, d);
    forall j | 0 <= j < size
      ensures noise[j] in {-1, 0, 1}
      ensures noise[j] != 0 <==> exists k :: 0 <= k < n && d.positions[k] == j
    {
      match LastHit(d.positions, j)
      case None =>
      case Some(h) =>
    }
    return Ok(noise);
  }

  /** The positions some draw hits. */
  function Hit(positions: seq<int>): set<int>
  {
    set k | 0 <= k < |positions| :: positions[k]
  }

  /** n draws hit at most n positions. */
  lemma {:induction false} HitBound(positions: seq<int>)
    ensures |Hit(positions)| <= |positions|
    decreases |positions|
  {
    if |positions| > 0 {
      var init := positions[..|positions| - 1];
      HitBound(init);
      assert Hit(positions) == Hit(init) + {positions[|positions| - 1]} by {
        forall x | x in Hit(positions) ensures x in Hit(init) + {positions[|positions| - 1]} {
          var k :| 0 <= k < |positions| && positions[k] == x;
          if k < |positions| - 1 {
            assert init[k] == x;
          }
        }
        forall x | x in Hit(init) ensures x in Hit(positions) {
          var k :| 0 <= k < |init| && init[k] == x;
          assert positions[k] == x;
        }
      }
    }
  }

  /** At most n samples of the impulse noise are non-zero. */
  lemma ImpulseCount(size: nat, n: nat, d: Draws, noise: seq<int>)
    requires ValidDraws(size, n, d)
    requires |noise| == size
    requires forall j :: 0 <= j < size ==> (noise[j] != 0 <==> exists k :: 0 <= k < n && d.positions[k] == j)
    ensures |set j | 0 <= j < size && noise[j] != 0| <= n
  {
    var nonzero := set j | 0 <= j < size && noise[j] != 0;
    assert nonzero <= Hit(d.positions) by {
      forall j | j in nonzero ensures j in Hit(d.positions) {
        var k :| 0 <= k < n && d.positions[k] == j;
      }
    }
    HitBound(d.positions);
    SubsetCard(nonzero, Hit(d.positions));
  }

  lemma SubsetCard(a: set<int>, b: set<int>)
    requires a <= b
    ensures |a| <= |b|
  {
    assert b == a + (b - a);
  }

  /** `run_add_impulse_noise` after loading: 500 impulses scaled to 1% added
      to the signal. */
  method AddImpulseNoise(inputFile: string, outDir: string, y: seq<real>, d: Draws) returns (r: Result<NoisyOutput, NoiseError>)
    requires |y| > 0 ==> ValidDraws(|y|, DefaultImpulses, d)
    ensures r.Err? <==> |y| == 0
    ensures r.Ok? ==> |r.value.audio| == |y|
    ensures r.Ok? ==> forall j :: 0 <= j < |y| ==>
      r.value.audio[j] == y[j] + (ImpulseAt(d, j) as real) * ImpulseNoiseLevel
    ensures r.Ok? ==> forall j :: 0 <= j < |y| ==>
      r.value.audio[j] - y[j] in {-ImpulseNoiseLevel, 0.0, ImpulseNoiseLevel}
    ensures r.Ok? ==> forall j :: 0 <= j < |y| ==>
      (r.value.audio[j] != y[j] <==> exists k :: 0 <= k < DefaultImpulses && d.positions[k] == j)
    ensures r.Ok? ==> |set j | 0 <= j < |y| && r.value.audio[j] != y[j]| <= DefaultImpulses
    ensures r.Ok? ==> PosixPath.Basename(r.value.path) == ImpulseNoisePrefix + PosixPath.Basename(inputFile)
  {
    var impulses := GenerateImpulseNoise(|y|, DefaultImpulses, d);
    if impulses.Err? {
      return Err(impulses.error);
    }
    var noise := impulses.value;
    var scaled := seq(|y|, i requires 0 <= i < |y| => noise[i] as real);
    var audio := AddScaled(y, scaled, ImpulseNoiseLevel);
    forall j | 0 <= j < |y|
      ensures audio[j] == y[j] + (noise[j] as real) * ImpulseNoiseLevel
      ensures audio[j] != y[j] <==> noise[j] != 0
    {
      assert audio[j] == y[j] + scaled[j] * ImpulseNoiseLevel;
    }
    ImpulseCount(|y|, DefaultImpulses, d, noise);
    assert (set j | 0 <= j < |y| && audio[j] != y[j]) == (set j | 0 <= j < |y| && noise[j] != 0);
    OutputPathName(outDir, ImpulseNoisePrefix, inputFile);
    return Ok(NoisyOutput(OutputPath(outDir, ImpulseNoisePrefix, inputFile), audio, PlotPaths(outDir, "impulse")));
  }
}
