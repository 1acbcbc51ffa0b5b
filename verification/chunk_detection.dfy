/** The chunk detectors of the two audio-chunking scripts. Both walk an
    envelope with an in-chunk flag: a chunk opens at index i when the
    detector is not in a chunk, the envelope at i is above the threshold and
    the ten samples from i rise strictly; it closes at a later i when the
    detector is in a chunk, the envelope is above the threshold and the ten
    samples from i fall strictly. Only 10 <= i < len - 10 is examined.
    Envelope samples and the threshold are exact reals here (floats in the
    scripts). */
module ChunkDetection {
  import opened Text
  import PosixPath
  import Sequences

  /** First index examined, and the number of indices left out at the end. */
  const Guard: nat := 10

  /** The `n` successive differences from index `i` are all positive. */
  predicate RisingRun(env: seq<real>, i: nat, n: nat)
    requires i + n < |env|
    decreases n
  {
    n == 0 || (env[i] < env[i + 1] && RisingRun(env, i + 1, n - 1))
  }

  /** The `n` successive differences from index `i` are all negative. */
  predicate FallingRun(env: seq<real>, i: nat, n: nat)
    requires i + n < |env|
    decreases n
  {
    n == 0 || (env[i] > env[i + 1] && FallingRun(env, i + 1, n - 1))
  }

  /** `np.all(np.diff(env[i:i + 10]) > 0)`: nine positive differences. */
  predicate RisingAt(env: seq<real>, i: nat)
    requires i + 10 <= |env|
  {
    RisingRun(env, i, 9)
  }

  /** `np.all(np.diff(env[i:i + 10]) < 0)`: nine negative differences. */
  predicate FallingAt(env: seq<real>, i: nat)
    requires i + 10 <= |env|
  {
    FallingRun(env, i, 9)
  }

  /** The recursive window test is the elementwise one. */
  lemma {:induction false} RisingRunMeaning(env: seq<real>, i: nat, n: nat)
    requires i + n < |env|
    ensures RisingRun(env, i, n) <==> forall k :: i <= k < i + n ==> env[k] < env[k + 1]
    decreases n
  {
    if n > 0 {
      RisingRunMeaning(env, i + 1, n - 1);
    }
  }

  lemma {:induction false} FallingRunMeaning(env: seq<real>, i: nat, n: nat)
    requires i + n < |env|
    ensures FallingRun(env, i, n) <==> forall k :: i <= k < i + n ==> env[k] > env[k + 1]
    decreases n
  {
    if n > 0 {
      FallingRunMeaning(env, i + 1, n - 1);
    }
  }

  /** Index i is examined and would open a chunk. */
  predicate Opens(env: seq<real>, thr: real, i: int)
  {
    Guard <= i && i + Guard < |env| && env[i] > thr && RisingAt(env, i)
  }

  /** Index i is examined and would close an open chunk. */
  predicate Closes(env: seq<real>, thr: real, i: int)
  {
    Guard <= i && i + Guard < |env| && env[i] > thr && FallingAt(env, i)
  }

  /** The open/close decisions of the state machine from index `i` on, as
      (open index, close index) pairs, before any length filter or padding.
      `openedAt` is where the current chunk opened when `inChunk`. A chunk
      still open when the indices run out yields no pair. */
  function ScanFrom(env: seq<real>, thr: real, i: nat, inChunk: bool, openedAt: nat): (ep: seq<(int, int)>)
    requires Guard <= i
    decreases |env| - i
  {
    if i + Guard >= |env| then []
    else if env[i] > thr && !inChunk && RisingAt(env, i) then ScanFrom(env, thr, i + 1, true, i)
    else if env[i] > thr && inChunk && FallingAt(env, i) then [(openedAt as int, i as int)] + ScanFrom(env, thr, i + 1, false, openedAt)
    else ScanFrom(env, thr, i + 1, inChunk, openedAt)
  }

  /** The scan's pairs are sound: each opens where a chunk may open and closes
      where it may close, at or after index `i`; each closes after it opens;
      a chunk open on entry is the first pair's open; pairs do not overlap. */
  lemma {:induction false} ScanFromFacts(env: seq<real>, thr: real, i: nat, inChunk: bool, openedAt: nat)
    requires Guard <= i
    requires inChunk ==> Guard <= openedAt < i && Opens(env, thr, openedAt)
    ensures forall k :: 0 <= k < |ScanFrom(env, thr, i, inChunk, openedAt)| ==>
      var p := ScanFrom(env, thr, i, inChunk, openedAt)[k];
      i <= p.1 && Closes(env, thr, p.1) && p.0 < p.1 && Opens(env, thr, p.0) && (k > 0 || !inChunk ==> i <= p.0)
    ensures inChunk && |ScanFrom(env, thr, i, inChunk, openedAt)| > 0 ==> ScanFrom(env, thr, i, inChunk, openedAt)[0].0 == openedAt
    ensures forall k :: 0 <= k < |ScanFrom(env, thr, i, inChunk, openedAt)| - 1 ==>
      ScanFrom(env, thr, i, inChunk, openedAt)[k].1 < ScanFrom(env, thr, i, inChunk, openedAt)[k + 1].0
    decreases |env| - i
  {
    if i + Guard >= |env| {
    } else if env[i] > thr && !inChunk && RisingAt(env, i) {
      ScanFromFacts(env, thr, i + 1, true, i);
    } else if env[i] > thr && inChunk && FallingAt(env, i) {
      ScanFromFacts(env, thr, i + 1, false, openedAt);
      var rest := ScanFrom(env, thr, i + 1, false, openedAt);
      var ep := ScanFrom(env, thr, i, inChunk, openedAt);
      assert ep == [(openedAt as int, i as int)] + rest;
      assert Closes(env, thr, i);
      forall k | 0 <= k < |ep|
        ensures i <= ep[k].1 && Closes(env, thr, ep[k].1)
        ensures ep[k].0 < ep[k].1 && Opens(env, thr, ep[k].0)
        ensures k > 0 ==> i <= ep[k].0
      {
        if k > 0 {
          assert ep[k] == rest[k - 1];
        }
      }
      forall k | 0 <= k < |ep| - 1 ensures ep[k].1 < ep[k + 1].0 {
        assert ep[k + 1] == rest[k];
      }
    } else {
      ScanFromFacts(env, thr, i + 1, inChunk, openedAt);
      assert ScanFrom(env, thr, i, inChunk, openedAt) == ScanFrom(env, thr, i + 1, inChunk, openedAt);
    }
  }

  /** The scan misses no open: no examined index before an open, counting
      from the previous close, could have opened a chunk. */
  lemma {:induction false} ScanMissesNoOpen(env: seq<real>, thr: real, i: nat, inChunk: bool, openedAt: nat, k: nat, j: nat)
    requires Guard <= i
    requires inChunk ==> Guard <= openedAt < i && Opens(env, thr, openedAt)
    requires var ep := ScanFrom(env, thr, i, inChunk, openedAt);
      k < |ep| && i <= j < ep[k].0 && (k == 0 || ep[k - 1].1 < j)
    ensures !Opens(env, thr, j)
    decreases |env| - i
  {
    var ep := ScanFrom(env, thr, i, inChunk, openedAt);
    ScanFromFacts(env, thr, i, inChunk, openedAt);
    if i + Guard >= |env| {
      assert false;
    } else if env[i] > thr && !inChunk && RisingAt(env, i) {
      ScanFromFacts(env, thr, i + 1, true, i);
      assert ep == ScanFrom(env, thr, i + 1, true, i);
      assert Opens(env, thr, i);
      ScanMissesNoOpen(env, thr, i + 1, true, i, k, j);
    } else if env[i] > thr && inChunk && FallingAt(env, i) {
      var rest := ScanFrom(env, thr, i + 1, false, openedAt);
      assert ep == [(openedAt as int, i as int)] + rest;
      assert k > 0 && ep[k] == rest[k - 1];
      if k > 1 {
        assert ep[k - 1] == rest[k - 2];
      }
      ScanMissesNoOpen(env, thr, i + 1, false, openedAt, k - 1, j);
    } else if j == i {
      assert k == 0 && !inChunk;
    } else {
      ScanMissesNoOpen(env, thr, i + 1, inChunk, openedAt, k, j);
    }
  }

  /** The scan misses no close: no index strictly between an open and its
      close could have closed the chunk. */
  lemma {:induction false} ScanMissesNoClose(env: seq<real>, thr: real, i: nat, inChunk: bool, openedAt: nat, k: nat, j: nat)
    requires Guard <= i
    requires inChunk ==> Guard <= openedAt < i && Opens(env, thr, openedAt)
    requires var ep := ScanFrom(env, thr, i, inChunk, openedAt);
      k < |ep| && i <= j < ep[k].1 && ep[k].0 < j
    ensures !Closes(env, thr, j)
    decreases |env| - i
  {
    var ep := ScanFrom(env, thr, i, inChunk, openedAt);
    ScanFromFacts(env, thr, i, inChunk, openedAt);
    if i + Guard >= |env| {
      assert false;
    } else if env[i] > thr && !inChunk && RisingAt(env, i) {
      ScanMissesNoClose(env, thr, i + 1, true, i, k, j);
    } else if env[i] > thr && inChunk && FallingAt(env, i) {
      var rest := ScanFrom(env, thr, i + 1, false, openedAt);
      assert ep == [(openedAt as int, i as int)] + rest;
      assert k > 0 && ep[k] == rest[k - 1];
      ScanMissesNoClose(env, thr, i + 1, false, openedAt, k - 1, j);
    } else if j == i {
      assert k == 0 && inChunk;
    } else {
      ScanMissesNoClose(env, thr, i + 1, inChunk, openedAt, k, j);
    }
  }

  /** Every (open, close) pair of the scan over the whole envelope, in order. */
  function Episodes(env: seq<real>, thr: real): seq<(int, int)>
  {
    ScanFrom(env, thr, Guard, false, 0)
  }

  /** Opens and closes meet their conditions and lie in the examined range;
      successive pairs do not overlap; an envelope of 20 samples or fewer has
      none; and no open or close was missed between them. */
  lemma EpisodesFacts(env: seq<real>, thr: real)
    ensures |env| <= 2 * Guard ==> Episodes(env, thr) == []
    ensures forall k :: 0 <= k < |Episodes(env, thr)| ==>
      Guard <= Episodes(env, thr)[k].0 < Episodes(env, thr)[k].1 && Episodes(env, thr)[k].1 + Guard < |env|
    ensures forall k :: 0 <= k < |Episodes(env, thr)| ==>
      Opens(env, thr, Episodes(env, thr)[k].0) && Closes(env, thr, Episodes(env, thr)[k].1)
    ensures forall k :: 0 <= k < |Episodes(env, thr)| - 1 ==> Episodes(env, thr)[k].1 < Episodes(env, thr)[k + 1].0
  {
    ScanFromFacts(env, thr, Guard, false, 0);
  }

  /** Completeness: the first examined index that could open a chunk opens
      one, and so on after each close; the first index after an open that
      could close it does so. */
  lemma EpisodesComplete(env: seq<real>, thr: real, k: nat, j: nat)
    requires var ep := Episodes(env, thr); k < |ep|
    ensures var ep := Episodes(env, thr);
      (Guard <= j < ep[k].0 && (k == 0 || ep[k - 1].1 < j) ==> !Opens(env, thr, j))
      && (ep[k].0 < j < ep[k].1 ==> !Closes(env, thr, j))
  {
    var ep := Episodes(env, thr);
    ScanFromFacts(env, thr, Guard, false, 0);
    if Guard <= j < ep[k].0 && (k == 0 || ep[k - 1].1 < j) {
      ScanMissesNoOpen(env, thr, Guard, false, 0, k, j);
    }
    if ep[k].0 < j < ep[k].1 {
      ScanMissesNoClose(env, thr, Guard, false, 0, k, j);
    }
  }

  /** A scan that yields nothing from inside a chunk meets no index that could close it. */
  lemma {:induction false} ScanEmptyNoClose(env: seq<real>, thr: real, i: nat, openedAt: nat, j: nat)
    requires Guard <= i <= j
    requires ScanFrom(env, thr, i, true, openedAt) == []
    ensures !Closes(env, thr, j)
    decreases |env| - i
  {
    if i + Guard >= |env| {
    } else if env[i] > thr && FallingAt(env, i) {
      assert false;
    } else if j > i {
      ScanEmptyNoClose(env, thr, i + 1, openedAt, j);
    }
  }

  /** A scan that yields nothing from outside a chunk meets no index that
      could open a chunk followed by one that could close it. */
  lemma {:induction false} ScanEmptyNoChunk(env: seq<real>, thr: real, i: nat, openedAt: nat, j: nat, j': nat)
    requires Guard <= i <= j < j'
    requires ScanFrom(env, thr, i, false, openedAt) == []
    ensures !(Opens(env, thr, j) && Closes(env, thr, j'))
    decreases |env| - i
  {
    if i + Guard >= |env| {
    } else if env[i] > thr && RisingAt(env, i) {
      ScanEmptyNoClose(env, thr, i + 1, i, j');
    } else if j > i {
      ScanEmptyNoChunk(env, thr, i + 1, openedAt, j, j');
    }
  }

  /** After the scan's last close (or from its start when it yields nothing)
      no index that could open is followed by one that could close. */
  lemma {:induction false} ScanTail(env: seq<real>, thr: real, i: nat, inChunk: bool, openedAt: nat, j: nat, j': nat)
    requires Guard <= i && j < j'
    requires var ep := ScanFrom(env, thr, i, inChunk, openedAt);
      if |ep| == 0 then i <= j else ep[|ep| - 1].1 < j
    ensures !(Opens(env, thr, j) && Closes(env, thr, j'))
    decreases |env| - i
  {
    var ep := ScanFrom(env, thr, i, inChunk, openedAt);
    if |ep| == 0 {
      if inChunk {
        ScanEmptyNoClose(env, thr, i, openedAt, j');
      } else {
        ScanEmptyNoChunk(env, thr, i, openedAt, j, j');
      }
    } else if env[i] > thr && !inChunk && RisingAt(env, i) {
      ScanTail(env, thr, i + 1, true, i, j, j');
    } else if env[i] > thr && inChunk && FallingAt(env, i) {
      var rest := ScanFrom(env, thr, i + 1, false, openedAt);
      assert ep == [(openedAt as int, i as int)] + rest;
      if |rest| == 0 {
        assert ep[|ep| - 1] == (openedAt as int, i as int);
        ScanEmptyNoChunk(env, thr, i + 1, openedAt, j, j');
      } else {
        assert ep[|ep| - 1] == rest[|rest| - 1];
        ScanTail(env, thr, i + 1, false, openedAt, j, j');
      }
    } else {
      ScanTail(env, thr, i + 1, inChunk, openedAt, j, j');
    }
  }

  /** Completeness at the end: after the last close (from the first examined
      index when there is none) no chunk could have opened and closed, so no
      complete chunk is missed after the last pair. */
  lemma EpisodesCompleteTail(env: seq<real>, thr: real, j: nat, j': nat)
    requires var ep := Episodes(env, thr);
      (if |ep| == 0 then Guard <= j else ep[|ep| - 1].1 < j) && j < j'
    ensures !(Opens(env, thr, j) && Closes(env, thr, j'))
  {
    ScanTail(env, thr, Guard, false, 0, j, j');
  }

  /** Successive pairs do not overlap, so no two pairs do. */
  lemma {:induction false} EpisodesDisjoint(env: seq<real>, thr: real, a: nat, b: nat)
    requires a < b < |Episodes(env, thr)|
    ensures Episodes(env, thr)[a].1 < Episodes(env, thr)[b].0
    decreases b - a
  {
    var ep := Episodes(env, thr);
    EpisodesFacts(env, thr);
    if a + 1 < b {
      EpisodesDisjoint(env, thr, a + 1, b);
    }
  }

  function Max(a: int, b: int): int { if a >= b then a else b }
  function Min(a: int, b: int): int { if a <= b then a else b }

  /** `int(a / b)` for ints: float division truncated toward zero, so the
      quotient rounds down for a non-negative dividend and up for a negative one. */
  function TruncDiv(a: int, b: nat): (q: int)
    requires b > 0
    ensures a >= 0 ==> q >= 0 && q * b <= a < (q + 1) * b
    ensures a < 0 ==> q <= 0 && (q - 1) * b < a <= q * b
  {
    if a >= 0 then
      assert a == (a / b) * b + a % b;
      a / b
    else
      var m := (-a) / b;
      assert -a == m * b + (-a) % b && 0 <= (-a) % b < b;
      -m
  }

  /** `int(sr * ms / 1000)`: a duration in milliseconds as a sample count. */
  function MsToSamples(sr: nat, ms: int): (n: int)
    ensures ms >= 0 ==> n >= 0 && n * 1000 <= sr * ms < (n + 1) * 1000
    ensures ms < 0 ==> n <= 0 && (n - 1) * 1000 < sr * ms <= n * 1000
  {
    TruncDiv(sr * ms, 1000)
  }

  /** The chunks of a pair list whose length reaches `minLen`, in order. */
  function KeepLong(xs: seq<(int, int)>, minLen: int): seq<(int, int)>
  {
    if |xs| == 0 then []
    else (if xs[0].1 - xs[0].0 >= minLen then [xs[0]] else []) + KeepLong(xs[1..], minLen)
  }

  /** The filter keeps exactly the long-enough pairs. */
  lemma {:induction false} KeepLongMembers(xs: seq<(int, int)>, minLen: int)
    ensures var ys := KeepLong(xs, minLen);
      && |ys| <= |xs|
      && (forall y :: y in ys ==> y in xs && y.1 - y.0 >= minLen)
      && (forall x :: x in xs && x.1 - x.0 >= minLen ==> x in ys)
    decreases |xs|
  {
    if |xs| > 0 {
      KeepLongMembers(xs[1..], minLen);
      assert forall x :: x in xs ==> x == xs[0] || x in xs[1..];
    }
  }

  /** Filtering keeps any order that holds between every earlier and later element. */
  lemma {:induction false} KeepLongKeepsOrder(xs: seq<(int, int)>, minLen: int, R: ((int, int), (int, int)) -> bool)
    requires forall a, b :: 0 <= a < b < |xs| ==> R(xs[a], xs[b])
    ensures var ys := KeepLong(xs, minLen);
      forall a, b :: 0 <= a < b < |ys| ==> R(ys[a], ys[b])
    decreases |xs|
  {
    if |xs| > 0 {
      var tail := xs[1..];
      var rest := KeepLong(tail, minLen);
      assert forall a, b :: 0 <= a < b < |tail| ==> R(tail[a], tail[b]) by {
        forall a, b | 0 <= a < b < |tail| ensures R(tail[a], tail[b]) {
          assert tail[a] == xs[a + 1] && tail[b] == xs[b + 1];
        }
      }
      KeepLongKeepsOrder(tail, minLen, R);
      KeepLongMembers(tail, minLen);
      var ys := KeepLong(xs, minLen);
      if xs[0].1 - xs[0].0 >= minLen {
        assert ys == [xs[0]] + rest;
        forall a, b | 0 <= a < b < |ys| ensures R(ys[a], ys[b]) {
          assert ys[b] == rest[b - 1];
          if a == 0 {
            assert rest[b - 1] in tail;
            var c :| 0 <= c < |tail| && tail[c] == rest[b - 1];
            assert xs[c + 1] == ys[b];
            assert R(xs[0], xs[c + 1]);
          } else {
            assert ys[a] == rest[a - 1];
          }
        }
      } else {
        assert ys == rest;
      }
    }
  }

  /** The padding of alg_audioChunks.py applied to each pair:
      start moved back by `pad` but not below 0, end moved on by `pad` but
      not past the envelope. */
  function PadAll(n: nat, pad: nat, ep: seq<(int, int)>): (ps: seq<(int, int)>)
    ensures |ps| == |ep|
    ensures forall k :: 0 <= k < |ep| ==> ps[k] == (Max(0, ep[k].0 - pad), Min(n, ep[k].1 + pad))
  {
    seq(|ep|, k requires 0 <= k < |ep| => (Max(0, ep[k].0 - pad), Min(n, ep[k].1 + pad)))
  }

  /** `detect_audio_chunks` of alg_audioChunks.py from index `i` on, with the
      loop state: in-chunk flag, padded chunk start, chunks kept so far. */
  function DetectPaddedFrom(env: seq<real>, thr: real, pad: nat, minLen: int,
                            i: nat, inChunk: bool, start: int, acc: seq<(int, int)>): seq<(int, int)>
    requires Guard <= i
    decreases |env| - i
  {
    if i + Guard >= |env| then acc
    else if env[i] > thr && !inChunk && RisingAt(env, i) then
      DetectPaddedFrom(env, thr, pad, minLen, i + 1, true, Max(0, i - pad), acc)
    else if env[i] > thr && inChunk && FallingAt(env, i) then
      var end := Min(|env|, i + pad);
      var acc' := if end - start >= minLen then acc + [(start, end)] else acc;
      DetectPaddedFrom(env, thr, pad, minLen, i + 1, false, start, acc')
    else DetectPaddedFrom(env, thr, pad, minLen, i + 1, inChunk, start, acc)
  }

  /** Padding then filtering a list with a first pair handles that pair first. */
  lemma KeepLongPadCons(n: nat, pad: nat, minLen: int, x: (int, int), rest: seq<(int, int)>)
    ensures KeepLong(PadAll(n, pad, [x] + rest), minLen)
            == (if Min(n, x.1 + pad) - Max(0, x.0 - pad) >= minLen then [(Max(0, x.0 - pad), Min(n, x.1 + pad))] else [])
               + KeepLong(PadAll(n, pad, rest), minLen)
  {
    var padded := PadAll(n, pad, [x] + rest);
    assert padded[0] == (Max(0, x.0 - pad), Min(n, x.1 + pad));
    assert padded[1..] == PadAll(n, pad, rest);
  }

  /** The step of the padded walk at a close, given the claim for the rest of the walk. */
  lemma PaddedCloseStep(env: seq<real>, thr: real, pad: nat, minLen: int,
                        i: nat, openedAt: nat, start: int, acc: seq<(int, int)>)
    requires Guard <= i && i + Guard < |env| && env[i] > thr && FallingAt(env, i)
    requires start == Max(0, openedAt - pad)
    requires var kept := if Min(|env|, i + pad) - start >= minLen then [(start, Min(|env|, i + pad))] else [];
      DetectPaddedFrom(env, thr, pad, minLen, i + 1, false, start, acc + kept)
      == (acc + kept) + KeepLong(PadAll(|env|, pad, ScanFrom(env, thr, i + 1, false, openedAt)), minLen)
    ensures DetectPaddedFrom(env, thr, pad, minLen, i, true, start, acc)
            == acc + KeepLong(PadAll(|env|, pad, ScanFrom(env, thr, i, true, openedAt)), minLen)
  {
    var end := Min(|env|, i + pad);
    var kept := if end - start >= minLen then [(start, end)] else [];
    var rest := ScanFrom(env, thr, i + 1, false, openedAt);
    assert acc + kept == (if end - start >= minLen then acc + [(start, end)] else acc);
    assert DetectPaddedFrom(env, thr, pad, minLen, i, true, start, acc)
           == DetectPaddedFrom(env, thr, pad, minLen, i + 1, false, start, acc + kept);
    assert ScanFrom(env, thr, i, true, openedAt) == [(openedAt as int, i as int)] + rest;
    KeepLongPadCons(|env|, pad, minLen, (openedAt as int, i as int), rest);
    ConcatAssoc(acc, kept, KeepLong(PadAll(|env|, pad, rest), minLen));
  }

  lemma ConcatAssoc<T>(a: seq<T>, b: seq<T>, c: seq<T>)
    ensures (a + b) + c == a + (b + c)
  {
  }

  /** The padded walk of alg_audioChunks.py is the scan padded and then filtered. */
  lemma {:induction false} DetectPaddedFromIsFilter(env: seq<real>, thr: real, pad: nat, minLen: int,
                                                    i: nat, inChunk: bool, openedAt: nat, start: int, acc: seq<(int, int)>)
    requires Guard <= i
    requires inChunk ==> Guard <= openedAt < i && Opens(env, thr, openedAt) && start == Max(0, openedAt - pad)
    ensures DetectPaddedFrom(env, thr, pad, minLen, i, inChunk, start, acc)
            == acc + KeepLong(PadAll(|env|, pad, ScanFrom(env, thr, i, inChunk, openedAt)), minLen)
    decreases |env| - i
  {
    if i + Guard >= |env| {
      assert acc + [] == acc;
    } else if env[i] > thr && !inChunk && RisingAt(env, i) {
      DetectPaddedFromIsFilter(env, thr, pad, minLen, i + 1, true, i, Max(0, i - pad), acc);
    } else if env[i] > thr && inChunk && FallingAt(env, i) {
      var end := Min(|env|, i + pad);
      var kept := if end - start >= minLen then [(start, end)] else [];
      DetectPaddedFromIsFilter(env, thr, pad, minLen, i + 1, false, openedAt, start, acc + kept);
      PaddedCloseStep(env, thr, pad, minLen, i, openedAt, start, acc);
    } else {
      DetectPaddedFromIsFilter(env, thr, pad, minLen, i + 1, inChunk, openedAt, start, acc);
    }
  }

  /** Padding fixed at 5 ms by alg_audioChunks.py. */
  const EdgePaddingMs: nat := 5

  /** alg_audioChunks.py `detect_audio_chunks`: the scanned pairs, padded by
      int(sr * 5 / 1000) samples and clamped to [0, len], then kept when at
      least int(sr * min_ms / 1000) long. */
  function DetectPadded(env: seq<real>, thr: real, sr: nat, minMs: nat): (chunks: seq<(int, int)>)
    ensures chunks == KeepLong(PadAll(|env|, MsToSamples(sr, EdgePaddingMs), Episodes(env, thr)), MsToSamples(sr, minMs))
  {
    var pad := MsToSamples(sr, EdgePaddingMs);
    DetectPaddedFromIsFilter(env, thr, pad, MsToSamples(sr, minMs), Guard, false, 0, 0, []);
    DetectPaddedFrom(env, thr, pad, MsToSamples(sr, minMs), Guard, false, 0, [])
  }

  /** Padding keeps a pair inside [0, n] and non-empty. */
  lemma PadAllBounded(n: nat, pad: nat, ep: seq<(int, int)>)
    requires forall k :: 0 <= k < |ep| ==> 0 <= ep[k].0 < ep[k].1 < n
    ensures forall c :: c in PadAll(n, pad, ep) ==> 0 <= c.0 < c.1 <= n
  {
    var padded := PadAll(n, pad, ep);
    forall k | 0 <= k < |padded| ensures 0 <= padded[k].0 < padded[k].1 <= n {
      assert padded[k] == (Max(0, ep[k].0 - pad), Min(n, ep[k].1 + pad));
    }
  }

  /** Padded and filtered pairs lie within [0, len], are non-empty and reach
      the minimum length. */
  lemma PaddedChunksBounded(env: seq<real>, thr: real, pad: nat, minLen: int)
    ensures forall c :: c in KeepLong(PadAll(|env|, pad, Episodes(env, thr)), minLen) ==>
      0 <= c.0 < c.1 <= |env| && c.1 - c.0 >= minLen
  {
    EpisodesFacts(env, thr);
    PadAllBounded(|env|, pad, Episodes(env, thr));
    KeepLongMembers(PadAll(|env|, pad, Episodes(env, thr)), minLen);
  }

  /** Padded and filtered pairs keep the scan's order of starts. */
  lemma PaddedChunksOrdered(env: seq<real>, thr: real, pad: nat, minLen: int)
    ensures forall a, b :: 0 <= a < b < |KeepLong(PadAll(|env|, pad, Episodes(env, thr)), minLen)| ==>
      KeepLong(PadAll(|env|, pad, Episodes(env, thr)), minLen)[a].0 <= KeepLong(PadAll(|env|, pad, Episodes(env, thr)), minLen)[b].0
  {
    var padded := PadAll(|env|, pad, Episodes(env, thr));
    var ep := Episodes(env, thr);
    EpisodesFacts(env, thr);
    forall a, b | 0 <= a < b < |padded| ensures padded[a].0 <= padded[b].0 {
      EpisodesDisjoint(env, thr, a, b);
      assert ep[a].0 < ep[a].1 < ep[b].0;
      assert padded[a].0 == Max(0, ep[a].0 - pad) && padded[b].0 == Max(0, ep[b].0 - pad);
    }
    KeepLongKeepsOrder(padded, minLen, (x: (int, int), y: (int, int)) => x.0 <= y.0);
  }

  /** What alg_audioChunks.py promises of its chunks: none for a short
      envelope; each within [0, len], non-empty and at least the minimum
      length; starts never decrease. */
  lemma DetectPaddedFacts(env: seq<real>, thr: real, sr: nat, minMs: nat)
    ensures |env| <= 2 * Guard ==> DetectPadded(env, thr, sr, minMs) == []
    ensures forall c :: c in DetectPadded(env, thr, sr, minMs) ==>
      0 <= c.0 < c.1 <= |env| && c.1 - c.0 >= MsToSamples(sr, minMs)
    ensures forall a, b :: 0 <= a < b < |DetectPadded(env, thr, sr, minMs)| ==>
      DetectPadded(env, thr, sr, minMs)[a].0 <= DetectPadded(env, thr, sr, minMs)[b].0
  {
    EpisodesFacts(env, thr);
    PaddedChunksBounded(env, thr, MsToSamples(sr, EdgePaddingMs), MsToSamples(sr, minMs));
    PaddedChunksOrdered(env, thr, MsToSamples(sr, EdgePaddingMs), MsToSamples(sr, minMs));
  }

  /** `detect_audio_chunks` of alg_audioChunks2.py from index `i` on: the same
      walk, but the raw open and close indices are stored. */
  function DetectRawFrom(env: seq<real>, thr: real, minLen: int,
                         i: nat, inChunk: bool, start: int, acc: seq<(int, int)>): seq<(int, int)>
    requires Guard <= i
    decreases |env| - i
  {
    if i + Guard >= |env| then acc
    else if env[i] > thr && !inChunk && RisingAt(env, i) then
      DetectRawFrom(env, thr, minLen, i + 1, true, i, acc)
    else if env[i] > thr && inChunk && FallingAt(env, i) then
      var acc' := if i - start >= minLen then acc + [(start, i)] else acc;
      DetectRawFrom(env, thr, minLen, i + 1, false, start, acc')
    else DetectRawFrom(env, thr, minLen, i + 1, inChunk, start, acc)
  }

  lemma {:induction false} DetectRawFromIsFilter(env: seq<real>, thr: real, minLen: int,
                                                 i: nat, inChunk: bool, openedAt: nat, acc: seq<(int, int)>)
    requires Guard <= i
    requires inChunk ==> Guard <= openedAt < i && Opens(env, thr, openedAt)
    ensures DetectRawFrom(env, thr, minLen, i, inChunk, openedAt, acc)
            == acc + KeepLong(ScanFrom(env, thr, i, inChunk, openedAt), minLen)
    decreases |env| - i
  {
    var ep := ScanFrom(env, thr, i, inChunk, openedAt);
    if i + Guard >= |env| {
      assert acc + [] == acc;
    } else if env[i] > thr && !inChunk && RisingAt(env, i) {
      DetectRawFromIsFilter(env, thr, minLen, i + 1, true, i, acc);
    } else if env[i] > thr && inChunk && FallingAt(env, i) {
      var acc' := if i - openedAt >= minLen then acc + [(openedAt as int, i as int)] else acc;
      var rest := ScanFrom(env, thr, i + 1, false, openedAt);
      DetectRawFromIsFilter(env, thr, minLen, i + 1, false, openedAt, acc');
      assert ep == [(openedAt as int, i as int)] + rest;
      assert ep[1..] == rest;
    } else {
      DetectRawFromIsFilter(env, thr, minLen, i + 1, inChunk, openedAt, acc);
    }
  }

  /** alg_audioChunks2.py `detect_audio_chunks`: the scanned pairs that are at
      least int(sr * min_ms / 1000) long, unpadded. */
  function DetectRaw(env: seq<real>, thr: real, sr: nat, minMs: nat): (chunks: seq<(int, int)>)
    ensures chunks == KeepLong(Episodes(env, thr), MsToSamples(sr, minMs))
  {
    DetectRawFromIsFilter(env, thr, MsToSamples(sr, minMs), Guard, false, 0, []);
    DetectRawFrom(env, thr, MsToSamples(sr, minMs), Guard, false, 0, [])
  }

  /** What alg_audioChunks2.py promises of its chunks: each satisfies
      10 <= s < e < len - 10 and is at least the minimum length, and chunks
      are strictly ordered and disjoint. */
  lemma DetectRawFacts(env: seq<real>, thr: real, sr: nat, minMs: nat)
    ensures var chunks := DetectRaw(env, thr, sr, minMs);
      && (|env| <= 2 * Guard ==> chunks == [])
      && (forall c :: c in chunks ==> Guard <= c.0 < c.1 < |env| - Guard && c.1 - c.0 >= MsToSamples(sr, minMs))
      && (forall c :: c in chunks ==> Opens(env, thr, c.0) && Closes(env, thr, c.1))
      && (forall a, b :: 0 <= a < b < |chunks| ==> chunks[a].1 < chunks[b].0)
  {
    var ep := Episodes(env, thr);
    EpisodesFacts(env, thr);
    KeepLongMembers(ep, MsToSamples(sr, minMs));
    forall a, b | 0 <= a < b < |ep| ensures ep[a].1 < ep[b].0 {
      EpisodesDisjoint(env, thr, a, b);
    }
    KeepLongKeepsOrder(ep, MsToSamples(sr, minMs), (x: (int, int), y: (int, int)) => x.1 < y.0);
  }
}
