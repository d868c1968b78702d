/** `VideoData` of fish_cutting_analysis/app.py: one camera stream, given by
    the names in its frame folder, and `get_index`, which maps a query time
    to a frame index by a first estimate `time // df` followed by a
    two-sided local search. The float `df` is replaced by the exact fraction
    (t[-1] - t[1]) / (len(frames) - 1). */
module Video {
  import opened PyBuiltins
  import opened FrameNames

  /** A stream as `__init__` leaves it: the sorted timestamps, the number of
      frames the image reader found, and `df` as the fraction dfNum / dfDen. */
  datatype VideoData = VideoData(timestamp: seq<int>, frameCount: nat, dfNum: int, dfDen: int)

  /** The shape a lookup relies on: at least two timestamps, one per frame,
      and df = (t[-1] - t[1]) / (n - 1) with a numerator that is not negative. */
  ghost predicate Shaped(v: VideoData)
  {
    && |v.timestamp| >= 2
    && v.frameCount == |v.timestamp|
    && v.dfNum == v.timestamp[|v.timestamp| - 1] - v.timestamp[1]
    && v.dfDen == v.frameCount - 1
    && v.dfNum >= 0
  }

  /** What every successfully constructed stream satisfies. */
  ghost predicate Valid(v: VideoData)
  {
    Shaped(v) && SortedAsc(v.timestamp)
  }

  // ---------------------------------------------------------------------------
  // Construction

  /** The names that pass `"jpg" in name`, in listing order. */
  function JpgNames(names: seq<string>): (r: seq<string>)
    ensures |r| <= |names|
  {
    if names == [] then []
    else (if ContainsJpg(names[0]) then [names[0]] else []) + JpgNames(names[1..])
  }

  /** The filter keeps exactly the names that contain `jpg`. */
  lemma {:induction false} JpgNamesSpec(names: seq<string>)
    ensures forall x :: x in JpgNames(names) <==> x in names && ContainsJpg(x)
    decreases |names|
  {
    if names != [] {
      JpgNamesSpec(names[1..]);
      assert names == [names[0]] + names[1..];
    }
  }

  /** The timestamps the folder's names yield, before sorting. */
  function FolderStamps(names: set<string>): (r: Option<seq<int>>)
    ensures r.Some? ==> |r.value| <= |names|
  {
    ParseStems(JpgNames(SortedNames(names)))
  }

  /** `len(io.imread_collection(folder + "*.jpg"))`. */
  function FrameCount(names: set<string>): (n: nat)
    ensures n <= |names|
  {
    var frames := set f | f in names && GlobJpg(f);
    assert frames * names == frames;
    assert |names - frames| == |names| - |frames|;
    |frames|
  }

  /** `VideoData.__init__`, failing as the source does and in its order:
      ValueError from `int()`, IndexError from `timestamp[-1]` or
      `timestamp[1]`, ZeroDivisionError from a single frame, ValueError
      when timestamps and frames differ in number. */
  function Build(names: set<string>): (r: Result<VideoData>)
    ensures r.Ok? ==> Valid(r.value)
  {
    var frames := FrameCount(names);
    match FolderStamps(names)
    case None => Err(ValueError)
    case Some(stamps) =>
      var ts := Sort(stamps);
      if |ts| < 2 then Err(IndexError)
      else if frames == 1 then Err(ZeroDivisionError)
      else if |ts| != frames then Err(ValueError)
      else
        SortedAscMonotone(ts, 1, |ts| - 1);
        Ok(VideoData(ts, frames, ts[|ts| - 1] - ts[1], frames - 1))
  }

  /** A stream is built exactly when every counted name parses, there are at
      least two timestamps, and there are as many of them as frames; its
      timestamps are then the parsed ones, sorted. */
  lemma BuildSucceeds(names: set<string>)
    ensures Build(names).Ok? <==> FolderStamps(names).Some? && |FolderStamps(names).value| >= 2
                                  && |FolderStamps(names).value| == FrameCount(names)
    ensures Build(names).Ok? ==> multiset(Build(names).value.timestamp) == multiset(FolderStamps(names).value)
  {
  }

  /** The first failure wins: `int()` before the reads of t[-1] and t[1],
      those before the division by len(frames) - 1. */
  lemma BuildFailures(names: set<string>)
    ensures FolderStamps(names).None? ==> Build(names) == Err(ValueError)
    ensures FolderStamps(names).Some? && |FolderStamps(names).value| < 2 ==> Build(names) == Err(IndexError)
    ensures FolderStamps(names).Some? && |FolderStamps(names).value| >= 2 && FrameCount(names) == 1
            ==> Build(names) == Err(ZeroDivisionError)
  {
  }

  // ---------------------------------------------------------------------------
  // The estimate

  /** `int(time // df)` with df = dfNum / dfDen computed exactly: the floor
      of time * dfDen / dfNum, a ZeroDivisionError when t[-1] == t[1]. */
  function Estimate(v: VideoData, time: int): (r: Result<int>)
    requires Shaped(v)
    ensures r.Err? <==> v.dfNum == 0
    ensures r.Err? ==> r.error == ZeroDivisionError
  {
    if v.dfNum == 0 then Err(ZeroDivisionError) else Ok((time * v.dfDen) / v.dfNum)
  }

  /** The estimate is floor(time / df): the largest k with k * df <= time. */
  lemma EstimateIsFloor(v: VideoData, time: int)
    requires Shaped(v) && Estimate(v, time).Ok?
    ensures var k := Estimate(v, time).value;
            k * v.dfNum <= time * v.dfDen < (k + 1) * v.dfNum
  {
  }

  /** With two frames t[-1] is t[1], so df is 0 and every lookup divides by zero. */
  lemma TwoFramesDivideByZero(v: VideoData, time: int)
    requires Shaped(v) && |v.timestamp| == 2
    ensures Lookup(v, time) == Err(ZeroDivisionError)
  {
  }

  // ---------------------------------------------------------------------------
  // The local search

  /** `abs(timestamp[i] - time)` under Python indexing; None is an IndexError. */
  function ErrorAt(ts: seq<int>, time: int, i: int): (r: Option<nat>)
    ensures r.Some? <==> -|ts| <= i < |ts|
    ensures 0 <= i < |ts| ==> r == Some(Abs(ts[i] - time))
    ensures -|ts| <= i < 0 ==> r == Some(Abs(ts[|ts| + i] - time))
  {
    match At(ts, i)
    case Some(t) => Some(Abs(t - time))
    case None => None
  }

  /** The `while` loop of `get_index` run from the loop state (err, res,
      offset, next, prev). One round reads est + offset while `next` holds,
      then est - offset while `prev` holds, compared with the error as the
      forward half left it; a side that does not strictly improve is
      switched off; then `offset += 1` while a flag holds, otherwise `break`
      returns the best index. A read outside [-n, n) is an IndexError. The
      recursion ends because every round that goes on has lowered the error. */
  function Search(ts: seq<int>, time: int, est: int, err: nat, res: int, offset: int, next: bool, prev: bool)
    : (r: Result<int>)
    ensures r.Err? ==> r.error == IndexError
    decreases err
  {
    var fwd := ErrorAt(ts, time, est + offset);
    if next && fwd.None? then Err(IndexError)
    else
      var fImp := next && err > fwd.value;
      var err1: nat := if fImp then fwd.value else err;
      var res1 := if fImp then est + offset else res;
      var bwd := ErrorAt(ts, time, est - offset);
      if prev && bwd.None? then Err(IndexError)
      else
        var bImp := prev && err1 > bwd.value;
        var err2: nat := if bImp then bwd.value else err1;
        var res2 := if bImp then est - offset else res1;
        if fImp || bImp then Search(ts, time, est, err2, res2, offset + 1, fImp, bImp)
        else Ok(res2)
  }

  /** `get_index(time)` as a function of the stream and the query. The first
      read `timestamp[est_idx]` comes before the `est_idx >= len(frames)`
      test, so a too-large estimate is an IndexError already and the early
      return behind that test is never taken. */
  function Lookup(v: VideoData, time: int): (r: Result<int>)
    requires Shaped(v)
    ensures r.Err? ==> r.error == (if v.dfNum == 0 then ZeroDivisionError else IndexError)
  {
    match Estimate(v, time)
    case Err(e) => Err(e)
    case Ok(est) =>
      match ErrorAt(v.timestamp, time, est)
      case None => Err(IndexError)
      case Some(e) =>
        if est >= v.frameCount then Ok(v.frameCount - 1)
        else Search(v.timestamp, time, est, e, est, 1, true, true)
  }

  // ---------------------------------------------------------------------------
  // The imperative search

  /** The part of a round of Search after the forward probe: the backward
      probe from the state the forward half left, then the next round. */
  ghost function BackwardHalf(ts: seq<int>, time: int, est: int, err: nat, res: int, offset: int,
                              next: bool, prev: bool, err0: nat): Result<int>
    requires next ==> err < err0
    decreases err0
  {
    var bwd := ErrorAt(ts, time, est - offset);
    if prev && bwd.None? then Err(IndexError)
    else
      var bImp := prev && err > bwd.value;
      var err2: nat := if bImp then bwd.value else err;
      var res2 := if bImp then est - offset else res;
      if next || bImp then Search(ts, time, est, err2, res2, offset + 1, next, bImp)
      else Ok(res2)
  }

  /** `VideoData.get_index`, the loop as written; it computes Lookup. */
  method GetIndex(v: VideoData, time: int) returns (r: Result<int>)
    requires Shaped(v)
    ensures r == Lookup(v, time)
  {
    var ts := v.timestamp;
    var estimate := Estimate(v, time);
    if estimate.Err? {
      return Err(ZeroDivisionError);
    }
    var estIdx := estimate.value;
    var first := ErrorAt(ts, time, estIdx);
    if first.None? {
      return Err(IndexError);
    }
    var err: nat := first.value;
    if estIdx >= v.frameCount {
      return Ok(v.frameCount - 1);
    }
    r := SearchLoop(v, time, estIdx, err);
  }

  /** The `while` loop of `get_index`, from the estimate and its error. */
  method SearchLoop(v: VideoData, time: int, estIdx: int, estErr: nat) returns (r: Result<int>)
    requires estIdx < v.frameCount
    ensures r == Search(v.timestamp, time, estIdx, estErr, estIdx, 1, true, true)
  {
    var ts := v.timestamp;
    var err: nat, resIdx: int := estErr, estIdx;
    var next, prev, offset := true, true, 1;
    while estIdx < v.frameCount
      invariant Search(ts, time, estIdx, err, resIdx, offset, next, prev)
                == Search(ts, time, estIdx, estErr, estIdx, 1, true, true)
      decreases err
    {
      ghost var err0, res0, next0 := err, resIdx, next;
      if next {
        var p := ErrorAt(ts, time, estIdx + offset);
        if p.None? {
          return Err(IndexError);
        }
        if err > p.value {
          err := p.value;
          resIdx := estIdx + offset;
        } else {
          next := false;
        }
      }
      assert Search(ts, time, estIdx, err0, res0, offset, next0, prev)
             == BackwardHalf(ts, time, estIdx, err, resIdx, offset, next, prev, err0);
      ghost var err1, res1, prev1 := err, resIdx, prev;
      if prev {
        var p := ErrorAt(ts, time, estIdx - offset);
        if p.None? {
          return Err(IndexError);
        }
        if err > p.value {
          err := p.value;
          resIdx := estIdx - offset;
        } else {
          prev := false;
        }
      }
      assert BackwardHalf(ts, time, estIdx, err1, res1, offset, next, prev1, err0)
             == if next || prev then Search(ts, time, estIdx, err, resIdx, offset + 1, next, prev) else Ok(resIdx);
      if next || prev {
        offset := offset + 1;
      } else {
        break;
      }
    }
    return Ok(resIdx);
  }

  // ---------------------------------------------------------------------------
  // What the search guarantees

  /** From a state whose error is the error of its index, the search returns
      an index that can be read, with an error no larger. */
  lemma {:induction false} SearchNeverWorse(ts: seq<int>, time: int, est: int, err: nat, res: int,
                                            offset: int, next: bool, prev: bool)
    requires ErrorAt(ts, time, res) == Some(err)
    ensures var r := Search(ts, time, est, err, res, offset, next, prev);
            r.Ok? ==> ErrorAt(ts, time, r.value).Some? && ErrorAt(ts, time, r.value).value <= err
    decreases err
  {
    var fwd := ErrorAt(ts, time, est + offset);
    var bwd := ErrorAt(ts, time, est - offset);
    if !(next && fwd.None?) && !(prev && bwd.None?) {
      var fImp := next && err > fwd.value;
      var err1: nat := if fImp then fwd.value else err;
      var res1 := if fImp then est + offset else res;
      var bImp := prev && err1 > bwd.value;
      var err2: nat := if bImp then bwd.value else err1;
      var res2 := if bImp then est - offset else res1;
      if fImp || bImp {
        SearchNeverWorse(ts, time, est, err2, res2, offset + 1, fImp, bImp);
      }
    }
  }

  /** The returned index's error is never larger than the error at the
      estimate. */
  lemma LookupNeverWorse(v: VideoData, time: int)
    requires Shaped(v) && Lookup(v, time).Ok?
    ensures Estimate(v, time).Ok?
    ensures var e := ErrorAt(v.timestamp, time, Lookup(v, time).value);
            var e0 := ErrorAt(v.timestamp, time, Estimate(v, time).value);
            e.Some? && e0.Some? && e.value <= e0.value
  {
    var est := Estimate(v, time).value;
    var e0 := ErrorAt(v.timestamp, time, est).value;
    if est < v.frameCount {
      SearchNeverWorse(v.timestamp, time, est, e0, est, 1, true, true);
    }
  }

  /** A successful lookup names a frame under Python indexing. */
  lemma LookupIsFrameIndex(v: VideoData, time: int)
    requires Shaped(v)
    ensures Lookup(v, time).Ok? ==> Normalize(v.frameCount, Lookup(v, time).value).Some?
  {
    if Lookup(v, time).Ok? {
      LookupNeverWorse(v, time);
    }
  }

  /** An estimate at or beyond the last frame never reaches the clamp: an
      estimate of len(frames) or more fails at the first read, and an
      estimate of exactly the last index fails at the first forward probe. */
  lemma EstimatePastEndFails(v: VideoData, time: int)
    requires Shaped(v) && Estimate(v, time).Ok? && Estimate(v, time).value >= v.frameCount - 1
    ensures Lookup(v, time) == Err(IndexError)
  {
  }

  /** An estimate below -len(frames) fails at the first read; one in
      [-len(frames), 0) reads a frame counted from the end. */
  lemma NegativeEstimate(v: VideoData, time: int)
    requires Shaped(v) && Estimate(v, time).Ok? && Estimate(v, time).value < 0
    ensures Estimate(v, time).value < -(v.frameCount as int) ==> Lookup(v, time) == Err(IndexError)
    ensures ErrorAt(v.timestamp, time, Estimate(v, time).value) ==
            if Estimate(v, time).value < -(v.frameCount as int) then None
            else Some(Abs(v.timestamp[v.frameCount + Estimate(v, time).value] - time))
  {
  }

  /** When both sides find the same strictly better error in one round, the
      forward candidate, probed first, is kept and the backward side is
      switched off: the backward candidate is no strict improvement over it. */
  lemma RoundTieFavoursForward(ts: seq<int>, time: int, est: int, err: nat, res: int, offset: int, e: nat)
    requires e < err
    requires ErrorAt(ts, time, est + offset) == Some(e) && ErrorAt(ts, time, est - offset) == Some(e)
    ensures Search(ts, time, est, err, res, offset, true, true)
            == Search(ts, time, est, e, est + offset, offset + 1, true, false)
  {
  }

  /** The best index moves only on a strict improvement: when no active
      side does better than the current error (a tie included), the loop
      stops at the current index. */
  lemma NoImprovementKeepsBest(ts: seq<int>, time: int, est: int, err: nat, res: int,
                               offset: int, next: bool, prev: bool)
    requires next ==> ErrorAt(ts, time, est + offset).Some? && ErrorAt(ts, time, est + offset).value >= err
    requires prev ==> ErrorAt(ts, time, est - offset).Some? && ErrorAt(ts, time, est - offset).value >= err
    ensures Search(ts, time, est, err, res, offset, next, prev) == Ok(res)
  {
  }

  /** A side once switched off is never looked at again: with `next` off
      the result is the current best or lies at est - offset or below. */
  lemma {:induction false} ForwardOffStaysOff(ts: seq<int>, time: int, est: int, err: nat, res: int,
                                              offset: int, prev: bool)
    ensures var r := Search(ts, time, est, err, res, offset, false, prev);
            r.Ok? ==> r.value == res || r.value <= est - offset
    decreases err
  {
    var bwd := ErrorAt(ts, time, est - offset);
    if prev && bwd.Some? && err > bwd.value {
      ForwardOffStaysOff(ts, time, est, bwd.value, est - offset, offset + 1, true);
    }
  }

  /** With `prev` off the result is the current best or lies at
      est + offset or above. */
  lemma {:induction false} BackwardOffStaysOff(ts: seq<int>, time: int, est: int, err: nat, res: int,
                                               offset: int, next: bool)
    ensures var r := Search(ts, time, est, err, res, offset, next, false);
            r.Ok? ==> r.value == res || r.value >= est + offset
    decreases err
  {
    var fwd := ErrorAt(ts, time, est + offset);
    if next && fwd.Some? && err > fwd.value {
      BackwardOffStaysOff(ts, time, est, fwd.value, est + offset, offset + 1, true);
    }
  }

  // ---------------------------------------------------------------------------
  // For strictly increasing timestamps the search finds the nearest frame

  ghost predicate Nearest(ts: seq<int>, time: int, j: int)
  {
    0 <= j < |ts| && forall i :: 0 <= i < |ts| ==> Abs(ts[j] - time) <= Abs(ts[i] - time)
  }

  ghost predicate LocalMin(ts: seq<int>, time: int, j: int)
    requires 0 <= j < |ts|
  {
    && (j == 0 || Abs(ts[j - 1] - time) >= Abs(ts[j] - time))
    && (j == |ts| - 1 || Abs(ts[j + 1] - time) >= Abs(ts[j] - time))
  }

  /** On strictly increasing timestamps |t[i] - time| falls and then rises,
      so a local minimum is a global one. */
  lemma LocalMinIsNearest(ts: seq<int>, time: int, j: int)
    requires StrictlyIncreasing(ts) && 0 <= j < |ts| && LocalMin(ts, time, j)
    ensures Nearest(ts, time, j)
  {
    forall i | 0 <= i < |ts| ensures Abs(ts[j] - time) <= Abs(ts[i] - time) {
      if i > j {
        assert ts[j] < ts[j + 1] <= ts[i];
        assert ts[j + 1] > time;
      } else if i < j {
        assert ts[i] <= ts[j - 1] < ts[j];
        assert ts[j - 1] < time;
      }
    }
  }

  /** The search walking forward alone: the best index is est + offset - 1
      and its left neighbour is no nearer. */
  ghost predicate ForwardPhase(ts: seq<int>, time: int, est: int, err: nat, res: int, offset: int)
  {
    && offset >= 2 && res == est + offset - 1 && 1 <= res < |ts|
    && err == Abs(ts[res] - time)
    && Abs(ts[res - 1] - time) >= err
  }

  /** The search walking backward alone: the best index is est - offset + 1
      and its right neighbour is no nearer. */
  ghost predicate BackwardPhase(ts: seq<int>, time: int, est: int, err: nat, res: int, offset: int)
  {
    && offset >= 2 && res == est - offset + 1 && 0 <= res < |ts| - 1
    && err == Abs(ts[res] - time)
    && Abs(ts[res + 1] - time) >= err
  }

  lemma {:induction false} ForwardPhaseFindsNearest(ts: seq<int>, time: int, est: int, err: nat, res: int, offset: int)
    requires StrictlyIncreasing(ts) && ForwardPhase(ts, time, est, err, res, offset)
    requires Search(ts, time, est, err, res, offset, true, false).Ok?
    ensures Nearest(ts, time, Search(ts, time, est, err, res, offset, true, false).value)
    decreases err
  {
    var k := res + 1;
    assert est + offset == k;
    if k < |ts| {
      var e := Abs(ts[k] - time);
      if err > e {
        assert Search(ts, time, est, err, res, offset, true, false)
               == Search(ts, time, est, e, k, offset + 1, true, false);
        ForwardPhaseFindsNearest(ts, time, est, e, k, offset + 1);
      } else {
        assert Search(ts, time, est, err, res, offset, true, false) == Ok(res);
        LocalMinIsNearest(ts, time, res);
      }
    }
  }

  lemma {:induction false} BackwardPhaseFindsNearest(ts: seq<int>, time: int, est: int, err: nat, res: int, offset: int)
    requires StrictlyIncreasing(ts) && BackwardPhase(ts, time, est, err, res, offset)
    requires Search(ts, time, est, err, res, offset, false, true).Ok?
    ensures Nearest(ts, time, Search(ts, time, est, err, res, offset, false, true).value)
    decreases err
  {
    var k := res - 1;
    assert est - offset == k;
    if 0 <= k {
      var e := Abs(ts[k] - time);
      if err > e {
        assert Search(ts, time, est, err, res, offset, false, true)
               == Search(ts, time, est, e, k, offset + 1, false, true);
        BackwardPhaseFindsNearest(ts, time, est, e, k, offset + 1);
      } else {
        assert Search(ts, time, est, err, res, offset, false, true) == Ok(res);
        LocalMinIsNearest(ts, time, res);
      }
    } else {
      // The read at -1 wraps to the last frame, which is no nearer.
      LocalMinIsNearest(ts, time, 0);
      assert ErrorAt(ts, time, k) == Some(Abs(ts[|ts| - 1] - time));
      assert Search(ts, time, est, err, res, offset, false, true) == Ok(0);
    }
  }

  /** The first round from an estimate with a neighbour on each side, on
      three increasing timestamps: it moves right, moves left or stops. */
  lemma FirstRound(ts: seq<int>, time: int, est: int)
    requires 1 <= est < |ts| - 1 && ts[est - 1] < ts[est] < ts[est + 1]
    ensures var e, ef, eb := Abs(ts[est] - time), Abs(ts[est + 1] - time), Abs(ts[est - 1] - time);
            && (ef < e ==> Search(ts, time, est, e, est, 1, true, true) == Search(ts, time, est, ef, est + 1, 2, true, false))
            && (ef >= e && eb < e ==> Search(ts, time, est, e, est, 1, true, true) == Search(ts, time, est, eb, est - 1, 2, false, true))
            && (ef >= e && eb >= e ==> Search(ts, time, est, e, est, 1, true, true) == Ok(est))
  {
    var e, ef, eb := Abs(ts[est] - time), Abs(ts[est + 1] - time), Abs(ts[est - 1] - time);
    // Moving right improves only when t[est] < time, and then the left side is worse.
    assert ef < e ==> eb > ef;
  }

  lemma FirstRoundFindsNearest(ts: seq<int>, time: int, est: int)
    requires StrictlyIncreasing(ts) && 1 <= est < |ts|
    requires Search(ts, time, est, Abs(ts[est] - time), est, 1, true, true).Ok?
    ensures Nearest(ts, time, Search(ts, time, est, Abs(ts[est] - time), est, 1, true, true).value)
  {
    var e := Abs(ts[est] - time);
    assert est + 1 < |ts|;
    assert ts[est - 1] < ts[est] < ts[est + 1];
    var ef, eb := Abs(ts[est + 1] - time), Abs(ts[est - 1] - time);
    FirstRound(ts, time, est);
    if ef < e {
      ForwardPhaseFindsNearest(ts, time, est, ef, est + 1, 2);
    } else if eb < e {
      BackwardPhaseFindsNearest(ts, time, est, eb, est - 1, 2);
    } else {
      LocalMinIsNearest(ts, time, est);
    }
  }

  /** The docstring's promise, where it holds: for strictly increasing
      timestamps and an estimate of at least 1 (the first round always reads
      est_idx - 1, so this is what keeps that read in range), a successful
      lookup returns the index nearest to `time` over the whole stream. */
  lemma LookupFindsNearest(v: VideoData, time: int)
    requires Valid(v) && StrictlyIncreasing(v.timestamp)
    requires Estimate(v, time).Ok? && Estimate(v, time).value >= 1
    requires Lookup(v, time).Ok?
    ensures Nearest(v.timestamp, time, Lookup(v, time).value)
  {
    var est := Estimate(v, time).value;
    if est >= v.frameCount - 1 {
      EstimatePastEndFails(v, time);
    } else {
      FirstRoundFindsNearest(v.timestamp, time, est);
    }
  }

  /** A query a little before the first timestamp gives a negative estimate;
      the first read then wraps to the last frame, and the forward probe
      recovers frame 0. */
  lemma NegativeQueryExample()
    ensures Valid(VideoData([0, 10, 20, 30], 4, 20, 3))
    ensures Estimate(VideoData([0, 10, 20, 30], 4, 20, 3), -5) == Ok(-1)
    ensures Lookup(VideoData([0, 10, 20, 30], 4, 20, 3), -5) == Ok(0)
  {
    var ts := [0, 10, 20, 30];
    assert ErrorAt(ts, -5, -1) == Some(35);
    assert ErrorAt(ts, -5, 0) == Some(5);
    assert ErrorAt(ts, -5, -2) == Some(25);
    assert ErrorAt(ts, -5, 1) == Some(15);
    assert Search(ts, -5, -1, 5, 0, 2, true, false) == Ok(0);
  }

  /** A query that is an exact multiple of df. Here df = 200 / 6 and time =
      200, so the exact estimate is 6; the float df rounds up, so Python's
      `200 // df` is 5.0. With the exact estimate the first forward probe
      reads t[7] of seven timestamps, an IndexError; the search run from
      the float's estimate 5 returns index 5. */
  lemma ExactMultipleExample()
    ensures Valid(VideoData([0, 10, 50, 100, 150, 195, 210], 7, 200, 6))
    ensures Estimate(VideoData([0, 10, 50, 100, 150, 195, 210], 7, 200, 6), 200) == Ok(6)
    ensures Lookup(VideoData([0, 10, 50, 100, 150, 195, 210], 7, 200, 6), 200) == Err(IndexError)
    ensures Search([0, 10, 50, 100, 150, 195, 210], 200, 5, 5, 5, 1, true, true) == Ok(5)
  {
    var ts := [0, 10, 50, 100, 150, 195, 210];
    assert ErrorAt(ts, 200, 6) == Some(10);
    assert ErrorAt(ts, 200, 7) == None;
    assert ErrorAt(ts, 200, 4) == Some(50);
  }

  /** Repeated timestamps. With timestamps [0, 100, 105, 105, 110, 400] and
      time 110, df = 300/5 and the estimate is 1. The first round moves
      forward to index 2 (error 5) and turns the backward side off, as
      index 0 is worse; the second round reaches index 3, whose error is
      also 5, so the search stops at index 2 although frame 4 is exactly
      at 110. */
  lemma RepeatedStampsExample()
    ensures Valid(VideoData([0, 100, 105, 105, 110, 400], 6, 300, 5))
    ensures Estimate(VideoData([0, 100, 105, 105, 110, 400], 6, 300, 5), 110) == Ok(1)
    ensures Lookup(VideoData([0, 100, 105, 105, 110, 400], 6, 300, 5), 110) == Ok(2)
    ensures ErrorAt([0, 100, 105, 105, 110, 400], 110, 2) == Some(5)
    ensures ErrorAt([0, 100, 105, 105, 110, 400], 110, 4) == Some(0)
  {
    var ts := [0, 100, 105, 105, 110, 400];
    assert ErrorAt(ts, 110, 1) == Some(10);
    assert ErrorAt(ts, 110, 0) == Some(110);
    assert ErrorAt(ts, 110, 3) == Some(5);
  }
}
