# Audio task pipeline: routing, batching and the per-file algorithms

This project models the processing core of an audio pipeline. The pipeline
moves audio files from object storage through worker processes that run
per-file audio algorithms. The model covers these parts:

- **The download worker** (`download_worker.py`). It reads a JSON task
  `{bucket, file, algorithms}`, resolves the local path under the shared
  download directory, and sends one `{file, algorithm}` task per entry of
  `algorithms`. A malformed task is logged and the loop carries on.
- **The two routers** (`router_for_download_workers.py`,
  `router_for_algorithm_workers.py`). Each probes its two ports, then relays
  multipart messages from its ROUTER socket to its DEALER socket unchanged.
  On any exception it cleans up in a finally-block.
- **The batch runner** (`alg_process.py`). It drains the shared queue,
  enqueues the batch, and appends one `None` sentinel per worker. The number
  of workers is `min(len(batch), 2 * cpu_count)`. Each worker reads the FIFO
  until it takes a sentinel, processing each entry that unpacks into
  `(bucket, file, algorithm)` and reporting the error for any other.
- **The chunk detectors** (`alg_audioChunks.py`, `alg_audioChunks2.py`).
  Each runs an open/close state machine over a smoothed envelope: 10-sample
  rising and falling runs, above `percent * max`.
  - The first pads every chunk by 5 ms and filters by minimum length.
  - The second filters the raw indices and widens each chunk only when it
    saves it: 400 ms before, 1000 ms after.
  - Both save `<name>_chunk<k>.wav` and `<name>_chunk<k>.png`.
- **Noise injection.** `alg_addSpeechOrCrowdNoise.py` tiles or trims a noise
  recording to the signal length and adds 5% of it. `alg_addImpulseNoise.py`
  scatters 500 impulses of ±1 at random positions and adds 1% of them.
- **Split and convert** (`alg_splitAndConvert.py`). It cuts a recording into
  pieces of at most one minute, named
  `<stem>_start<s>_end<e>_chunk<k>.wav`.
- **The three denoisers** (`alg_spectralSubtraction.py`,
  `alg_wienerFiltering.py`, `alg_spectralGating.py`).
  - They share `convert_to_wav`, which replaces every occurrence of
    `.<ext>`.
  - Each writes its processed WAV and images under its own prefix.
  - For mp3 and m4a inputs, each copies the result back to the original
    format.

Modules:
- `Wrappers`: `Option` and `Result`.
- `Text`: decimal formatting, ASCII `lower`, `split`-based helpers and
  `str.replace`.
- `PosixPath`: `os.path.join`, `basename` and the `splitext` stem.
- `Sequences`: Python slicing.
- `Tasks` and `DownloadWorker`.
- `Broker`.
- `AlgProcess`.
- `ChunkDetection` and `ChunkFiles`.
- `Noise`.
- `SplitConvert`.
- `Denoisers`.

How the model treats the source's environment:
- I/O becomes parameters: sockets, the file system, decoded audio and random
  draws. Examples are message streams, the set of existing paths, the
  envelope and the impulse positions.
- The results are the observable effects: messages forwarded, tasks sent,
  paths written, and samples produced.
- Python exceptions that end an operation are modelled as `Err` values.
  Examples:
  - `np.max` of an empty envelope;
  - `randint(0, 0, n)`;
  - integer division by an empty noise recording;
  - a missing task key;
  - `None * 2` when the CPU count is unknown.

## Model

| member | source | states |
|---|---|---|
| `Tasks.Lookup` | download_worker.py:52-54 | `task[key]` succeeds exactly when some member carries the key, and the value returned is one bound to that key |
| `DownloadWorker.ReadKeys` | download_worker.py:52-54 | reading a task succeeds exactly when it is an object holding `bucket`, `file` and `algorithms`; any other object fails with a missing key; on success the three fields are the looked-up values |
| `DownloadWorker.Iterate` | download_worker.py:72 | `for x in v` succeeds exactly on lists, strings and dicts: a list gives its items, a string its characters as one-character strings in order, a dict its keys in insertion order |
| `DownloadWorker.FanOutRoundTrip` | download_worker.py:72-77 | reading the algorithm field back from the sent tasks gives exactly the algorithm list, in order, and every task carries the same resolved path |
| `DownloadWorker.HandleTask` | download_worker.py:52-78 | handling succeeds exactly when the keys are present, `file` is a string and `algorithms` is iterable; then the path is `join(dir, file)`, the skip flag is whether the path exists, and the i-th task sent is `(path, i-th algorithm)` |
| `DownloadWorker.ListTaskDispatch` | download_worker.py:72-78 | a well-formed task with a list of k algorithms sends exactly those k algorithms in order, all for the joined path; an empty list sends nothing |
| `DownloadWorker.StepEventsFacts` | download_worker.py:47-83 | a received task prints the download notice exactly when its keys are present and `file` is a string, even when `algorithms` then turns out not to be iterable; it is logged as an error exactly when handling raises; the tasks it sends are those the schema defines for it |
| `DownloadWorker.RunWorkerSpec` | download_worker.py:46-83 | the loop dies only when the very first message cannot be decoded (the handler then reads an unbound `task`); otherwise the notices printed, the errors logged (one per undecodable message and one per task whose handling raises) and the tasks sent are exactly those of the messages in arrival order, whatever files exist |
| `DownloadWorker.ExpectedDispatchesPaths` | download_worker.py:60-77 | every task the schema expects from a message stream names `join(dir, file)` for the `file` of some decoded message that got as far as the notice |
| `DownloadWorker.WorkerDispatchPaths` | download_worker.py:26-78 | the worker as started, with the directory read from the environment, sends exactly the expected tasks for that directory unless it dies on its first message; every path it sends is `join(SHARED_DOWNLOAD_DIR, file)` for a received task's `file` when the variable is set, and `join("/tmp/shared_audio_files", file)` when it is not |
| `DownloadWorker.MalformedStepEvents` | download_worker.py:52-83 | a task whose handling raises yields its download notice, when the keys were read and `file` is a string, then one error log, and sends nothing |
| `DownloadWorker.MalformedTaskDispatchesNothing` | download_worker.py:65-83 | a malformed task yields at most its notice and one error log and no sent task, and the loop carries on with the next message exactly as if that task had been the last one received |
| `Broker.CheckPorts` | router_for_download_workers.py:20-26 | startup aborts exactly when the intake or distribution port is in use, at the router's log level; the distribution port is probed only when the intake port was free |
| `Broker.Relay` | router_for_download_workers.py:47-54 | the relay forwards a prefix of the received messages unchanged and in order, and stops exactly at the first exception, which it reports |
| `Broker.RelayIdentity` | router_for_download_workers.py:47-54 | on a stream without exceptions the relay is the identity on messages |
| `Broker.RouterFacts` | router_for_download_workers.py:18-71 | for any ports: abort iff a port is in use; when running, only received messages are forwarded, in order; a shutdown after both binds closes both sockets and terminates the context |
| `Broker.DownloadRouterRun` | router_for_download_workers.py:18-71 | the download router probes 5557 then 5558, aborts at error level on either, otherwise forwards until the first exception, after which both sockets are closed and the context terminated |
| `Broker.AlgorithmRouterRun` | router_for_algorithm_workers.py:18-69 | the algorithm router does the same on 5559 and 5560, but logs a busy port at info level |
| `Broker.BindFailureCleanup` | router_for_download_workers.py:32-71 | a failed frontend bind leaves the backend unbound, so cleanup closes the frontend, raises, and never terminates the context; a failed backend bind cleans up fully and forwards nothing |
| `AlgProcess.Unpack` | alg_process.py:20-28 | `bucket, file, algorithm = task` processes exactly the three-field entries and loses nothing: the entry's fields can be read back from the handling, and any other entry is reported, never processed |
| `AlgProcess.UnpackFieldsOf` | alg_process.py:20-28 | conversely, every well-formed handling (one that reports only an entry without three fields) is the unpacking of its own fields, so a logged handling determines the entry taken |
| `AlgProcess.StartABatch` | alg_process.py:43-80 | the call raises exactly when the core count is unknown, and then after filling the queue and before any sentinel; otherwise the queue is the batch then `min(len, 2 * cores)` sentinels, that many workers are spawned, and every worker so far is joined |
| `AlgProcess.StartABatchQueue` | alg_process.py:49-62 | leftovers are gone; the queue holds the batch in order then the sentinels, every task before every sentinel; an empty batch gives an empty queue and no worker |
| `AlgProcess.Step` | alg_process.py:12-28 | a live worker takes the head of a non-empty queue and leaves the live set exactly when it took a sentinel; otherwise nothing changes |
| `AlgProcess.ExitsMatchSentinels` | alg_process.py:14-18 | the number of worker exits equals the number of sentinels taken |
| `AlgProcess.StepKeeps` | alg_process.py:12-28 | one step keeps the queue discipline: items taken then queue left equals the queue before; live workers plus exits is constant; a worker leaves the live set only by logging its exit |
| `AlgProcess.RunKeeps` | alg_process.py:12-28 | any interleaving of workers keeps that discipline, so the shared queue behaves as one FIFO read in order |
| `AlgProcess.SentinelsInBatchQueue` | alg_process.py:59-62 | the batch queue holds exactly as many sentinels as workers |
| `AlgProcess.BatchDrains` | alg_process.py:53-80 | for any n distinct workers facing the batch and n sentinels, once the queue is empty, whatever the interleaving: every task was taken exactly once, in batch order, before any sentinel, and was processed exactly when it has three fields (a `(file, algorithm)` pair is reported); no worker is live; every one of the n workers has exited |
| `AlgProcess.StartABatchDrains` | alg_process.py:43-80 | the workers `start_a_batch` actually spawns, numbered after those of earlier batches, drain its queue: once it is empty every task was handled in batch order, processed exactly when it has three fields and reported otherwise, no worker is live, and exactly the spawned workers have exited |
| `AlgProcess.TakeTasks` | alg_process.py:12-21 | a live worker facing k tasks at the head takes all of them and stays live |
| `AlgProcess.TakeSentinels` | alg_process.py:14-18 | distinct live workers facing one sentinel each all take it |
| `AlgProcess.SequentialDrains` | alg_process.py:59-80 | with at least one worker for a non-empty batch, the workers run one after another empty the queue, so the drained state is reachable |
| `ChunkDetection.RisingRunMeaning` | alg_audioChunks.py:56 | the rising test holds exactly when each of the 9 successive differences in `env[i:i+10]` is positive |
| `ChunkDetection.FallingRunMeaning` | alg_audioChunks.py:60 | the falling test holds exactly when each of the 9 successive differences is negative |
| `ChunkDetection.ScanFromFacts` | alg_audioChunks.py:53-65 | each reported pair opens where a chunk may open and closes where it may close, closes after it opens, and pairs do not overlap |
| `ChunkDetection.ScanMissesNoOpen` | alg_audioChunks.py:53-58 | no examined index between the previous close and an open could have opened a chunk |
| `ChunkDetection.ScanMissesNoClose` | alg_audioChunks.py:59-65 | no index strictly between an open and its close could have closed the chunk |
| `ChunkDetection.EpisodesFacts` | alg_audioChunks.py:53-65 | over the loop range `[10, len - 10)`: an envelope of at most 20 samples yields nothing; every pair meets the open and close conditions inside the range; successive pairs do not overlap |
| `ChunkDetection.EpisodesComplete` | alg_audioChunks.py:53-65 | the first index that could open a chunk does open one, and the first index after it that could close it does close it |
| `ChunkDetection.EpisodesCompleteTail` | alg_audioChunks.py:53-65 | after the last reported pair (or from the loop start when there is none) no index opens a chunk that a later index closes, so the scan misses no chunk at the end of the envelope |
| `ChunkDetection.EpisodesDisjoint` | alg_audioChunks.py:53-65 | any earlier pair closes before any later pair opens |
| `ChunkDetection.TruncDiv` | alg_audioChunks.py:45-46 | `int(a / b)` truncates toward zero: for `a >= 0` the quotient q is the largest with `q * b <= a`, for `a < 0` the smallest with `a <= q * b`, and its sign follows `a` |
| `ChunkDetection.MsToSamples` | alg_audioChunks.py:45-46 | `int(sr * ms / 1000)` is the largest sample count whose duration does not exceed `ms` for non-negative `ms`, and for negative `ms` it rounds toward zero instead: the smallest count whose duration is not below `ms`, which is never positive |
| `ChunkDetection.KeepLongMembers` | alg_audioChunks.py:63-64 | the length filter keeps exactly the pairs that reach the minimum length |
| `ChunkDetection.KeepLongKeepsOrder` | alg_audioChunks.py:63-64 | the filter keeps any order that held between earlier and later pairs |
| `ChunkDetection.DetectPaddedFromIsFilter` | alg_audioChunks.py:48-67 | the padded loop equals the scan's pairs, padded by 5 ms, clamped to `[0, len]`, then filtered by length |
| `ChunkDetection.PaddedChunksBounded` | alg_audioChunks.py:57-64 | padded chunks lie within `[0, len]`, are non-empty and reach the minimum length |
| `ChunkDetection.PaddedChunksOrdered` | alg_audioChunks.py:57-64 | padded chunks keep the order of their starts |
| `ChunkDetection.DetectPadded` | alg_audioChunks.py:39-67 | `detect_audio_chunks` is, independently of its loop, the scan's pairs padded, clamped and filtered |
| `ChunkDetection.DetectPaddedFacts` | alg_audioChunks.py:39-67 | the detector returns nothing for a short envelope; every chunk lies within `[0, len]`, is non-empty and reaches the minimum; starts never decrease |
| `ChunkDetection.DetectRawFromIsFilter` | alg_audioChunks2.py:30-44 | the unpadded loop equals the scan's pairs filtered by length |
| `ChunkDetection.DetectRaw` | alg_audioChunks2.py:25-44 | the second detector is, independently of its loop, the scan's pairs filtered by length |
| `ChunkDetection.DetectRawFacts` | alg_audioChunks2.py:25-44 | the second detector's chunks satisfy `10 <= s < e < len - 10`, meet the open and close conditions, reach the minimum, and are strictly ordered and disjoint |
| `ChunkFiles.SeqMax` | alg_audioChunks.py:41 | `np.max` of a non-empty envelope is one of its values and no value exceeds it |
| `ChunkFiles.ChunkNamesDistinct` | alg_audioChunks.py:73 | two chunk numbers never give the same `<name>_chunk<k><ext>` |
| `ChunkFiles.SavedPathsDistinct` | alg_audioChunks.py:70-84 | the saved WAV paths are pairwise distinct, the plot paths are pairwise distinct, and no WAV path is a plot path |
| `ChunkFiles.FileNameOf` | alg_audioChunks.py:90 | the chunk name base holds no path separator |
| `ChunkFiles.PaddedPipeline` | alg_audioChunks.py:87-102 | the first pipeline fails exactly when the envelope is empty, where `np.max` raises |
| `ChunkFiles.SaveCuts` | alg_audioChunks.py:70-84 | each saved chunk is the signal cut at its window, and all paths are distinct |
| `ChunkFiles.PaddedPipelineFacts` | alg_audioChunks.py:87-102 | for a non-empty recording the first pipeline succeeds, every file is the signal cut at a detected chunk with threshold `percent * max`, and no two files share a path |
| `ChunkFiles.WidenContains` | alg_audioChunks2.py:48-54 | widening by non-negative pads keeps the chunk inside the window and the window inside the signal |
| `ChunkFiles.RawPipeline` | alg_audioChunks2.py:74-88 | the second pipeline fails exactly when the envelope is empty |
| `ChunkFiles.WidenAllCovers` | alg_audioChunks2.py:51-54 | every widened window contains its chunk and stays within the signal |
| `ChunkFiles.CoveredChunkInside` | alg_audioChunks2.py:53-57 | the saved cut contains the detected chunk's samples at the offset of the start padding |
| `ChunkFiles.PaddedMain` | alg_audioChunks.py:105-113 | the first script's main block, run with the pipeline's default threshold and minimum, fails exactly when the envelope is empty |
| `ChunkFiles.RawMain` | alg_audioChunks2.py:91-101 | the second script's main block fails exactly when the envelope is empty, whatever pads were given or defaulted |
| `ChunkFiles.RawMainDefaults` | alg_audioChunks2.py:91-101 | without pad arguments the second script succeeds on a non-empty recording, pads by 400 ms before and 1000 ms after, every window covers a chunk detected at 5% of the maximum with a 100 ms minimum, and every file is the signal cut at its window |
| `ChunkFiles.RawPipelineFacts` | alg_audioChunks2.py:47-88 | for a non-empty recording and non-negative pads the second pipeline succeeds, every window covers its detected chunk, every file is the signal cut at its window, and no two files share a path |
| `Noise.TileAt` | alg_addSpeechOrCrowdNoise.py:12-13 | `np.tile(noise, c)` has `c * len` samples and sample i is `noise[i mod len]` |
| `Noise.AdjustNoiseLengthFacts` | alg_addSpeechOrCrowdNoise.py:9-14 | fitting fails exactly for an empty noise and a positive target (division by zero); otherwise the result has the target length, repeats the noise cyclically, and is a plain prefix when the noise is long enough |
| `Noise.OutputPathName` | alg_addSpeechOrCrowdNoise.py:34 | the output's own name is the prefix followed by the input's base name |
| `Noise.OutputPathInjective` | alg_addSpeechOrCrowdNoise.py:34 | inputs with different base names get different output paths |
| `Noise.AddSpeechNoiseFacts` | alg_addSpeechOrCrowdNoise.py:16-41 | the run fails exactly for an empty noise and a non-empty signal; otherwise each sample gains 5% of the noise sample at its index modulo the noise length, and the output is named from the input |
| `Noise.LastHit` | alg_addImpulseNoise.py:11 | it finds the last draw at a position, or reports that no draw hit it |
| `Noise.Scatter` | alg_addImpulseNoise.py:9-11 | after fancy assignment each position holds the sign of the last draw that hit it, and 0 when none did |
| `Noise.GenerateImpulseNoise` | alg_addImpulseNoise.py:8-12 | it fails exactly for size 0 (`randint(0, 0)` raises); otherwise the noise has the given size, each sample is the sign of the last draw at its position or 0, so values are in {-1, 0, 1} and non-zero exactly at the drawn positions |
| `Noise.HitBound` | alg_addImpulseNoise.py:10-11 | n draws hit at most n distinct positions |
| `Noise.ImpulseCount` | alg_addImpulseNoise.py:8-12 | at most `num_impulses` samples are non-zero |
| `Noise.AddImpulseNoise` | alg_addImpulseNoise.py:8-23 | the run fails exactly for an empty signal; otherwise sample j gains 0.01 times the sign of the last draw that hit j (nothing when none did), so it changes exactly at the drawn positions, by -0.01 or +0.01, at most 500 samples change, and the output is named from the input |
| `SplitConvert.BoundsFacts` | alg_splitAndConvert.py:18-26 | pieces start at 0 and follow without gap or overlap; each is at most a minute and all but the last exactly a minute; the last ends at the total and is empty exactly when the total is a whole number of minutes |
| `SplitConvert.PieceNamesDistinct` | alg_splitAndConvert.py:35 | two piece numbers never give the same file name |
| `SplitConvert.PiecesPrefix` | alg_splitAndConvert.py:24-28 | the first k pieces together are the recording up to the end of piece k |
| `SplitConvert.PiecesTile` | alg_splitAndConvert.py:20-28 | all pieces together, in order, are exactly the recording |
| `SplitConvert.ConvertAndSplit` | alg_splitAndConvert.py:20-24 | it exports `total // 60000 + 1` pieces |
| `SplitConvert.ConvertAndSplitTiles` | alg_splitAndConvert.py:20-39 | the exported pieces, in order, are exactly the recording, and none is longer than a minute |
| `SplitConvert.ConvertAndSplitPathsDistinct` | alg_splitAndConvert.py:12-36 | no two exported pieces share a path |
| `Denoisers.ConvertToWavChangesIff` | alg_spectralSubtraction.py:10-17 | the WAV name differs from the input exactly when the lowered extension is mp3 or m4a and `.<lowered ext>` occurs verbatim in the input |
| `Denoisers.ExtensionOfSuffix` | alg_spectralSubtraction.py:11 | the extension of `stem.ext` is `ext` lowered, whatever dots the stem holds |
| `Denoisers.LowerCaseSuffixConverted` | alg_spectralSubtraction.py:10-17 | a lower-case mp3 or m4a name whose stem does not contain the suffix becomes `stem.wav` |
| `Denoisers.UpperCaseSuffixKept` | alg_spectralSubtraction.py:10-17 | an upper-case `.MP3` counts as mp3, but the lowered pattern does not occur, so the name is unchanged |
| `Denoisers.EveryOccurrenceReplaced` | alg_spectralSubtraction.py:10-17 | for any name `a.<ext>b.<ext>c` with an mp3 or m4a extension and no other occurrence of `.<ext>`, both occurrences are replaced, not only the last: the WAV name is `a.wavb.wavc` |
| `Denoisers.RunExported` | alg_spectralGating.py:12-19 | `convert_to_wav` exports a WAV exactly when the lowered extension is mp3 or m4a, always to the returned WAV name, and that name is the input itself when `.<lowered ext>` does not occur in it |
| `Denoisers.UpperCaseInputOverwritten` | alg_spectralGating.py:12-19 | an upper-case `.MP3` input is decoded and exported as WAV under its own name, overwriting the original, and is then not copied back |
| `Denoisers.RunProcessedName` | alg_spectralSubtraction.py:43 | the processed file's name is the script's prefix followed by the WAV's base name |
| `Denoisers.RunImageNames` | alg_spectralSubtraction.py:47-81 | each image is named from the WAV's base name up to its first dot, followed by the image's suffix, in the order saved |
| `Denoisers.RunConvertedBack` | alg_spectralSubtraction.py:50-94 | a converted-back copy is written exactly when the input is mp3 or m4a and its lowered suffix occurs in it; it is named with the converted prefix and the original's base name |
| `Denoisers.WavInputRun` | alg_spectralSubtraction.py:20-53 | an input that is not mp3 or m4a keeps its name, is processed under the prefix and its own base name, and is not copied back |
| `Denoisers.MpegInputRun` | alg_spectralSubtraction.py:10-53 | a lower-case mp3 or m4a input is processed as `stem.wav` and copied back under the converted prefix |
| `Denoisers.ScriptNames` | alg_spectralSubtraction.py:20-94 | for every script: the processed name is the output prefix plus the WAV's base name, one image per suffix in order, and a copy back under the converted prefix exactly when the WAV name differs from the input |
| `Denoisers.SpectralSubtractionNames` | alg_spectralSubtraction.py:43-94 | writes `processed_<wav>`, three images (original, processed, overlay), and the copy back as `sepctral_subtraction_<input>` (spelling as in the source) |
| `Denoisers.WienerFilteringNames` | alg_wienerFiltering.py:33-83 | writes `wiener_filtered_<wav>`, three images (original, filtered, comparison), and the copy back as `wiener_filtered_<input>` |
| `Denoisers.SpectralGatingNames` | alg_spectralGating.py:43-89 | writes `spectral_gating_<wav>`, one combined image, and the copy back as `processed_<input>` |
| `Text.NatToStringInjective` | alg_audioChunks.py:73 | different chunk numbers format to different decimal strings |
| `Text.NumberedNamesInjective` | alg_splitAndConvert.py:35 | two names `<x><number><tail>` with the same tail, where each x ends in a non-digit, are equal only for equal numbers |
| `Text.ReplaceAllUnchangedIff` | alg_spectralSubtraction.py:14 | when the replacement has the pattern's length but differs from it, `str.replace` leaves the string unchanged exactly when the pattern does not occur |
| `Text.ReplaceFirstOccurrence` | alg_spectralSubtraction.py:14 | `str.replace` rewrites the first occurrence and continues after it: with no occurrence starting in `t`, `(t + p + u).replace(p, r)` is `t + r + u.replace(p, r)` |
| `Text.ReplaceTwoOccurrences` | alg_spectralSubtraction.py:14 | two occurrences separated by pattern-free text are both replaced, and a tail the replacement leaves alone is kept |
| `Text.ReplaceSoleSuffix` | alg_spectralSubtraction.py:14 | a pattern that occurs only as the suffix is replaced there alone |
| `PosixPath.BasenameOfJoin` | alg_addSpeechOrCrowdNoise.py:34 | the base name of `join(dir, name)` is `name` when `name` holds no separator |
| `PosixPath.JoinInjective` | alg_audioChunks.py:73 | joining separator-free names to one directory is injective |
| `PosixPath.StemOfExtension` | alg_audioChunks.py:90 | `splitext` drops the last extension of a base name |
| `Sequences.PySlice` | alg_audioChunks.py:72 | a Python slice never exceeds the sequence; in-range bounds give the ordinary slice; crossed bounds give the empty sequence |

## Left out

- Sockets and networking are not modelled: no ZMQ contexts, real port probes or blocking receives. The model takes port-in-use as a set of ports, received messages and exceptions as a stream, and bind failures as a parameter.
- The socket wiring across processes is not reconciled. The download worker pulls from 5557 and binds a PUSH socket on 5556 (download_worker.py:34-38), so it bypasses the algorithm router. Each component is modelled as written.
- algorithm_worker.py is not part of this model. It ignores the algorithm name and always runs one fixed script.
- Object storage is not modelled: s3_manager.py, and the fetch that download_worker.py:67 leaves commented out. The set of existing paths only selects the printed message.
- The numeric signal processing is not modelled: rectification, rolling means and multi-pass smoothing, STFT and dB conversion, spectral subtraction, Wiener filtering and spectral gating themselves. The detectors take the smoothed envelope as input, as a sequence of reals. The pipeline lemmas require the envelope to have the signal's length, which the rolling mean preserves.
- Float rounding is not modelled. Sample values and the 5% and 1% scale factors are exact reals.
- Randomness is not modelled. `randint` positions and `choice` signs are parameters (`Noise.Draws`). numpy assignment with repeated positions is taken as last write wins.
- A `None` entry inside a batch is not modelled: batch entries are tuples. Python would enqueue such an entry and a worker would treat it as an extra sentinel, so a batch like `[None, None, t]` could leave `t` unhandled; `AlgProcess.BatchDrains` and `AlgProcess.StartABatchDrains` speak only of batches of tuples.
- Process management is not modelled: spawning, `start` and `join`. Workers are consumers of one FIFO, interleaved by an arbitrary schedule of worker numbers. The `Empty` exception branch of `worker_task` is not modelled, since a blocking `get` never raises it.
- File and plot I/O is not modelled: audio decoding, `makedirs`, plot drawing and titles, and log formatting. The model records which paths are written (including the WAV that `convert_to_wav` exports), which samples are written where the script computes them, and which notices and errors the download worker emits; the audio bytes of exported files are not modelled. A pydub recording is a sequence of one-millisecond frames.
- Python `lower()` is modelled for ASCII letters only. That is enough to decide whether an extension is mp3 or m4a.
- Command-line parsing is modelled only for the two chunk scripts: `ChunkFiles.PaddedMain` and `ChunkFiles.RawMain` take the optional pad arguments as parsed integers. A missing mandatory argument (`sys.argv[1]`) or a non-integer pad, which make Python raise before any work, are not modelled. The other scripts' main blocks are not modelled.
- JSON numbers other than integers are not modelled. A task value is null, a boolean, an integer, a string, a list or an object.
- A JSON object's members are assumed to have distinct keys, as in the dict `recv_json` builds (a repeated key keeps its last value there). `Tasks.Lookup` returns the first member carrying a key, which is the same value under that assumption; objects with repeated keys are not normalised.
- Noise.ImpulseCount: bounds the number of non-zero samples by the number of draws. It does not state the exact count of distinct positions drawn.
- Noise.AddImpulseNoise: states each sample exactly, but bounds the number of changed samples only by the number of draws rather than stating the count of distinct positions drawn.
