/** alg_splitAndConvert.py: cut a decoded recording into pieces of at most
    60 seconds and export each as a WAV named after the input, the piece's
    start and end seconds and its number. The recording is a sequence of
    one-millisecond frames, since pydub measures and slices audio in
    milliseconds. */
module SplitConvert {
  import Text
  import PosixPath

  /** `chunk_duration = 60 * 1000`. */
  const ChunkMs: nat := 60 * 1000

  /** `(total_duration // chunk_duration) + 1`: one piece more than the
      whole minutes, so a length that is a whole number of minutes ends in
      an empty piece. */
  function NumChunks(total: nat): nat
  {
    total / ChunkMs + 1
  }

  /** Start and end, in milliseconds, of piece `i`. */
  function Bounds(total: nat, i: nat): (int, int)
  {
    (i * ChunkMs, if (i + 1) * ChunkMs <= total then (i + 1) * ChunkMs else total)
  }

  /** The pieces follow one another without gap or overlap from 0 to the end,
      each at most a minute long and all but the last exactly a minute; the
      last is empty exactly when the length is a whole number of minutes. */
  lemma BoundsFacts(total: nat, i: nat)
    requires i < NumChunks(total)
    ensures 0 <= Bounds(total, i).0 <= Bounds(total, i).1 <= total
    ensures Bounds(total, i).1 - Bounds(total, i).0 <= ChunkMs
    ensures i == 0 ==> Bounds(total, i).0 == 0
    ensures i + 1 < NumChunks(total) ==>
      Bounds(total, i).1 == Bounds(total, i + 1).0 && Bounds(total, i).1 - Bounds(total, i).0 == ChunkMs
    ensures i + 1 == NumChunks(total) ==>
      Bounds(total, i).1 == total && (Bounds(total, i).0 == Bounds(total, i).1 <==> total % ChunkMs == 0)
  {
    var q := total / ChunkMs;
    assert total == q * ChunkMs + total % ChunkMs;
    assert i * ChunkMs <= q * ChunkMs;
  }

  /** `f"{filename}_start{start_seconds}_end{end_seconds}_chunk{i + 1}.wav"`,
      seconds truncated. */
  function PieceName(fileName: string, total: nat, i: nat): string
  {
    var b := Bounds(total, i);
    fileName + "_start" + Text.NatToString(b.0 / 1000) + "_end" + Text.NatToString(b.1 / 1000)
      + "_chunk" + Text.NatToString(i + 1) + ".wav"
  }

  /** Piece names of one input never collide: the number before ".wav"
      tells them apart. */
  lemma PieceNamesDistinct(fileName: string, total: nat, i: nat, j: nat)
    requires i != j
    ensures PieceName(fileName, total, i) != PieceName(fileName, total, j)
  {
    var bi, bj := Bounds(total, i), Bounds(total, j);
    var xi := fileName + "_start" + Text.NatToString(bi.0 / 1000) + "_end" + Text.NatToString(bi.1 / 1000) + "_chunk";
    var xj := fileName + "_start" + Text.NatToString(bj.0 / 1000) + "_end" + Text.NatToString(bj.1 / 1000) + "_chunk";
    assert PieceName(fileName, total, i) == xi + Text.NatToString(i + 1) + ".wav";
    assert PieceName(fileName, total, j) == xj + Text.NatToString(j + 1) + ".wav";
    if PieceName(fileName, total, i) == PieceName(fileName, total, j) {
      Text.NumberedNamesInjective(xi, i + 1, xj, j + 1, ".wav");
    }
  }

  /** A piece name holds no separator when the input's stem holds none. */
  lemma PieceNameSeparatorFree(fileName: string, total: nat, i: nat)
    requires PosixPath.Sep !in fileName
    ensures PosixPath.Sep !in PieceName(fileName, total, i)
  {
    var b := Bounds(total, i);
    var s, e, n := Text.NatToString(b.0 / 1000), Text.NatToString(b.1 / 1000), Text.NatToString(i + 1);
    assert PosixPath.Sep !in s && PosixPath.Sep !in e && PosixPath.Sep !in n;
    assert PieceName(fileName, total, i) == fileName + "_start" + s + "_end" + e + "_chunk" + n + ".wav";
  }

  /** `audio[start_time:end_time]` for piece `i`. */
  function Piece<T>(audio: seq<T>, i: nat): seq<T>
    requires i < NumChunks(|audio|)
  {
    BoundsFacts(|audio|, i);
    audio[Bounds(|audio|, i).0..Bounds(|audio|, i).1]
  }

  /** Every piece, in order. */
  function Pieces<T>(audio: seq<T>): (ps: seq<seq<T>>)
    ensures |ps| == NumChunks(|audio|)
  {
    seq(NumChunks(|audio|), i requires 0 <= i < NumChunks(|audio|) => Piece(audio, i))
  }

  /** Sequences joined one after another. */
  function Flatten<T>(xss: seq<seq<T>>): seq<T>
  {
    if |xss| == 0 then [] else Flatten(xss[..|xss| - 1]) + xss[|xss| - 1]
  }

  /** The first k pieces together are the recording up to the end of piece k - 1. */
  lemma {:induction false} PiecesPrefix<T>(audio: seq<T>, k: nat)
    requires 0 < k <= NumChunks(|audio|)
    ensures Flatten(Pieces(audio)[..k]) == audio[..Bounds(|audio|, k - 1).1]
    decreases k
  {
    var ps := Pieces(audio);
    BoundsFacts(|audio|, k - 1);
    var end := Bounds(|audio|, k - 1).1;
    assert ps[..k][..k - 1] == ps[..k - 1];
    assert Flatten(ps[..k]) == Flatten(ps[..k - 1]) + ps[k - 1];
    if k == 1 {
      assert Flatten(ps[..0]) == [];
      assert ps[0] == audio[0..end];
    } else {
      PiecesPrefix(audio, k - 1);
      BoundsFacts(|audio|, k - 2);
      var mid := Bounds(|audio|, k - 2).1;
      assert ps[k - 1] == audio[mid..end];
      assert audio[..end] == audio[..mid] + audio[mid..end];
    }
  }

  /** The pieces together are the whole recording. */
  lemma PiecesTile<T>(audio: seq<T>)
    ensures Flatten(Pieces(audio)) == audio
  {
    var n := NumChunks(|audio|);
    PiecesPrefix(audio, n);
    BoundsFacts(|audio|, n - 1);
    assert Pieces(audio)[..n] == Pieces(audio);
  }

  /** One exported piece: the path it goes to and its frames. */
  datatype Export<T> = Export(path: string, audio: seq<T>)

  /** `convert_and_split_audio` after decoding: every piece in order, each
      exported under the output folder. */
  function ConvertAndSplit<T>(inputFile: string, outDir: string, audio: seq<T>): (r: seq<Export<T>>)
    ensures |r| == NumChunks(|audio|)
  {
    var fileName := PosixPath.Stem(PosixPath.Basename(inputFile));
    seq(NumChunks(|audio|), i requires 0 <= i < NumChunks(|audio|) =>
      Export(PosixPath.Join(outDir, PieceName(fileName, |audio|, i)), Pieces(audio)[i]))
  }

  /** The frames of each export. */
  function Frames<T>(xs: seq<Export<T>>): seq<seq<T>>
  {
    seq(|xs|, i requires 0 <= i < |xs| => xs[i].audio)
  }

  /** The exported pieces, together and in order, are exactly the
      recording, and none is longer than a minute. */
  lemma ConvertAndSplitTiles<T>(inputFile: string, outDir: string, audio: seq<T>)
    ensures Flatten(Frames(ConvertAndSplit(inputFile, outDir, audio))) == audio
    ensures forall i :: 0 <= i < |ConvertAndSplit(inputFile, outDir, audio)| ==>
      |ConvertAndSplit(inputFile, outDir, audio)[i].audio| <= ChunkMs
  {
    var xs := ConvertAndSplit(inputFile, outDir, audio);
    var ps := Pieces(audio);
    assert |Frames(xs)| == |ps|;
    forall i | 0 <= i < |xs| ensures Frames(xs)[i] == ps[i] && |ps[i]| <= ChunkMs {
      BoundsFacts(|audio|, i);
    }
    assert Frames(xs) == ps;
    PiecesTile(audio);
  }

  /** No two exported pieces share a path. */
  lemma ConvertAndSplitPathsDistinct<T>(inputFile: string, outDir: string, audio: seq<T>, i: nat, j: nat)
    requires i < j < NumChunks(|audio|)
    ensures ConvertAndSplit(inputFile, outDir, audio)[i].path != ConvertAndSplit(inputFile, outDir, audio)[j].path
  {
    var xs := ConvertAndSplit(inputFile, outDir, audio);
    var fileName := PosixPath.Stem(PosixPath.Basename(inputFile));
    assert PosixPath.Sep !in fileName by {
      assert forall c :: c in fileName ==> c in PosixPath.Basename(inputFile);
    }
    var ni, nj := PieceName(fileName, |audio|, i), PieceName(fileName, |audio|, j);
    PieceNamesDistinct(fileName, |audio|, i, j);
    PieceNameSeparatorFree(fileName, |audio|, i);
    PieceNameSeparatorFree(fileName, |audio|, j);
    assert xs[i].path == PosixPath.Join(outDir, ni);
    assert xs[j].path == PosixPath.Join(outDir, nj);
    if xs[i].path == xs[j].path {
      PosixPath.JoinInjective(outDir, ni, nj);
    }
  }
}
