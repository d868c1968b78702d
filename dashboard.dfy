/** The interactive state of `DataProcessServer` in
    fish_cutting_analysis/app.py: the three camera streams, the mocap table,
    the shared frame index moved by the slider and the two buttons, and the
    four per-stream hammer points that align the streams. */
module Dashboard {
  import opened PyBuiltins
  import Video

  /** What fired `update_frames`: the slider with its value, one of the two
      buttons, or none of them (Dash's first call carries no trigger). */
  datatype Trigger = SliderMoved(value: int) | NextPressed | PrevPressed | NoTrigger

  /** One row of the mocap position table; the model only selects rows. */
  datatype MocapRow = MocapRow(x: int, y: int, z: int)

  /** The frame positions `update_frames` shows, one per stream. */
  datatype Shown = Shown(hololens: nat, camera1: nat, camera2: nat)

  /** The new `frame_idx` after a trigger, for a hololens stream of
      `holoFrames` frames. */
  function StepFrame(frameIdx: int, trigger: Trigger, holoFrames: nat): (r: int)
    ensures trigger.SliderMoved? ==> r == trigger.value
    ensures trigger.NextPressed? ==> r <= holoFrames - 1 && (r == frameIdx + 1 || r == holoFrames - 1)
    ensures trigger.NextPressed? && frameIdx < holoFrames - 1 ==> r == frameIdx + 1
    ensures trigger.PrevPressed? ==> r >= 0 && (r == frameIdx - 1 || r == 0)
    ensures trigger.PrevPressed? && frameIdx > 0 ==> r == frameIdx - 1
    ensures trigger.NoTrigger? ==> r == frameIdx
  {
    match trigger
    case SliderMoved(v) => v
    case NextPressed => Min(frameIdx + 1, holoFrames - 1)
    case PrevPressed => Max(frameIdx - 1, 0)
    case NoTrigger => frameIdx
  }

  /** The buttons keep an index inside the hololens stream inside it. */
  lemma ButtonsStayInStream(frameIdx: int, holoFrames: nat)
    requires 0 <= frameIdx < holoFrames
    ensures 0 <= StepFrame(frameIdx, NextPressed, holoFrames) < holoFrames
    ensures 0 <= StepFrame(frameIdx, PrevPressed, holoFrames) < holoFrames
  {
  }

  /** Away from the ends, "prev" undoes "next" and "next" undoes "prev". */
  lemma ButtonsUndoEachOther(frameIdx: int, holoFrames: nat)
    ensures 0 <= frameIdx < holoFrames - 1
            ==> StepFrame(StepFrame(frameIdx, NextPressed, holoFrames), PrevPressed, holoFrames) == frameIdx
    ensures 0 < frameIdx <= holoFrames - 1
            ==> StepFrame(StepFrame(frameIdx, PrevPressed, holoFrames), NextPressed, holoFrames) == frameIdx
  {
  }

  /** The position `frames[v.get_index(frame_idx + hammer)]` shows for a
      stream with hammer point `hammer`: the found index under Python
      indexing (a negative index counts from the end), or the exception
      `get_index` raised. */
  function FrameAt(v: Video.VideoData, frameIdx: int, hammer: int): (r: Result<nat>)
    requires Video.Shaped(v)
    ensures r.Ok? <==> Video.Lookup(v, frameIdx + hammer).Ok?
    ensures r.Err? ==> r == Err(Video.Lookup(v, frameIdx + hammer).error)
    ensures r.Ok? ==> r.value < v.frameCount
    ensures r.Ok? && Video.Lookup(v, frameIdx + hammer).value >= 0 ==> r.value == Video.Lookup(v, frameIdx + hammer).value
    ensures r.Ok? && Video.Lookup(v, frameIdx + hammer).value < 0
            ==> r.value == Video.Lookup(v, frameIdx + hammer).value + v.frameCount
  {
    match Video.Lookup(v, frameIdx + hammer)
    case Err(e) => Err(e)
    case Ok(i) =>
      Video.LookupIsFrameIndex(v, frameIdx + hammer);
      Ok(Normalize(v.frameCount, i).value)
  }

  /** The three figures of `update_frames` from the three lookups, built in
      the source's order: they are shown exactly when all three lookups
      succeed, and otherwise the first failing lookup, in the order
      hololens, camera 1, camera 2, is the exception the callback raises. */
  function Figures(hololens: Result<nat>, camera1: Result<nat>, camera2: Result<nat>): (r: Result<Shown>)
    ensures r.Ok? <==> hololens.Ok? && camera1.Ok? && camera2.Ok?
    ensures r.Ok? ==> r.value == Shown(hololens.value, camera1.value, camera2.value)
    ensures hololens.Err? ==> r == Err(hololens.error)
    ensures hololens.Ok? && camera1.Err? ==> r == Err(camera1.error)
    ensures hololens.Ok? && camera1.Ok? && camera2.Err? ==> r == Err(camera2.error)
  {
    match hololens
    case Err(e) => Err(e)
    case Ok(h) =>
      match camera1
      case Err(e) => Err(e)
      case Ok(c1) =>
        match camera2
        case Err(e) => Err(e)
        case Ok(c2) => Ok(Shown(h, c1, c2))
  }

  class DataProcessServer {
    var hololens: Video.VideoData
    var camera1: Video.VideoData
    var camera2: Video.VideoData
    var mocap: seq<MocapRow>
    var frameIdx: int
    var hololensHammer: int
    var camera1Hammer: int
    var camera2Hammer: int
    var mocapHammer: int

    /** The three streams are as `VideoData.__init__` leaves them. */
    ghost predicate Valid()
      reads this
    {
      Video.Valid(hololens) && Video.Valid(camera1) && Video.Valid(camera2)
    }

    /** `__init__` once the folders are read and the mocap table loaded:
        frame index 0 and all hammer points 0. */
    constructor(hololens: Video.VideoData, camera1: Video.VideoData, camera2: Video.VideoData,
                mocap: seq<MocapRow>)
      requires Video.Valid(hololens) && Video.Valid(camera1) && Video.Valid(camera2)
      ensures Valid()
      ensures this.hololens == hololens && this.camera1 == camera1 && this.camera2 == camera2
      ensures this.mocap == mocap
      ensures frameIdx == 0
      ensures hololensHammer == 0 && camera1Hammer == 0 && camera2Hammer == 0 && mocapHammer == 0
    {
      this.hololens := hololens;
      this.camera1 := camera1;
      this.camera2 := camera2;
      this.mocap := mocap;
      frameIdx := 0;
      hololensHammer := 0;
      camera1Hammer := 0;
      camera2Hammer := 0;
      mocapHammer := 0;
    }

    /** `update_frames`: move the frame index as the trigger says, then look
        each stream up at the new index plus its hammer point. Only
        `frame_idx` changes, even when a lookup raises. */
    method UpdateFrames(trigger: Trigger) returns (r: Result<Shown>)
      requires Valid()
      modifies this
      ensures Valid()
      ensures frameIdx == StepFrame(old(frameIdx), trigger, hololens.frameCount)
      ensures hololens == old(hololens) && camera1 == old(camera1) && camera2 == old(camera2)
      ensures mocap == old(mocap)
      ensures hololensHammer == old(hololensHammer) && camera1Hammer == old(camera1Hammer)
      ensures camera2Hammer == old(camera2Hammer) && mocapHammer == old(mocapHammer)
      ensures r == Figures(FrameAt(hololens, frameIdx, hololensHammer), FrameAt(camera1, frameIdx, camera1Hammer),
                           FrameAt(camera2, frameIdx, camera2Hammer))
    {
      frameIdx := StepFrame(frameIdx, trigger, hololens.frameCount);
      r := ShowAll(hololens, camera1, camera2, frameIdx, hololensHammer, camera1Hammer, camera2Hammer);
    }

    /** The three `px.imshow(frames[get_index(...)])` calls of
        `update_frames`, in order; the first lookup that raises ends it. */
    static method ShowAll(hololens: Video.VideoData, camera1: Video.VideoData, camera2: Video.VideoData,
                          frameIdx: int, hololensHammer: int, camera1Hammer: int, camera2Hammer: int)
      returns (r: Result<Shown>)
      requires Video.Shaped(hololens) && Video.Shaped(camera1) && Video.Shaped(camera2)
      ensures r == Figures(FrameAt(hololens, frameIdx, hololensHammer), FrameAt(camera1, frameIdx, camera1Hammer),
                           FrameAt(camera2, frameIdx, camera2Hammer))
    {
      var h := Show(hololens, frameIdx, hololensHammer);
      if h.Err? {
        return Err(h.error);
      }
      var c1 := Show(camera1, frameIdx, camera1Hammer);
      if c1.Err? {
        return Err(c1.error);
      }
      var c2 := Show(camera2, frameIdx, camera2Hammer);
      if c2.Err? {
        return Err(c2.error);
      }
      return Ok(Shown(h.value, c1.value, c2.value));
    }

    /** `frames[get_index(frame_idx + hammer)]` for one stream, through the
        imperative `get_index`. */
    static method Show(v: Video.VideoData, frameIdx: int, hammer: int) returns (r: Result<nat>)
      requires Video.Shaped(v)
      ensures r == FrameAt(v, frameIdx, hammer)
    {
      var i := Video.GetIndex(v, frameIdx + hammer);
      if i.Err? {
        return Err(i.error);
      }
      Video.LookupIsFrameIndex(v, frameIdx + hammer);
      return Ok(Normalize(v.frameCount, i.value).value);
    }

    /** `update_plots`: the mocap rows `p1_df[int(h / 10):int((slider + h) / 10)]`
        for the mocap hammer point h, both bounds truncated toward zero and
        then read as Python slice bounds; nothing changes. */
    function UpdatePlots(slider: int): (r: seq<MocapRow>)
      reads this
      ensures |r| <= |mocap|
      ensures 0 <= mocapHammer && 0 <= slider
              ==> r == mocap[Min(mocapHammer / 10, |mocap|)..Min((slider + mocapHammer) / 10, |mocap|)]
    {
      Slice(mocap, TruncDiv(mocapHammer, 10), TruncDiv(slider + mocapHammer, 10))
    }

    /** `sync_hammer`: overwrite exactly the four hammer points; return 0. */
    method SyncHammer(hololensPoint: int, camera1Point: int, camera2Point: int, mocapPoint: int)
      returns (r: int)
      requires Valid()
      modifies this
      ensures Valid()
      ensures r == 0
      ensures hololensHammer == hololensPoint && camera1Hammer == camera1Point
      ensures camera2Hammer == camera2Point && mocapHammer == mocapPoint
      ensures hololens == old(hololens) && camera1 == old(camera1) && camera2 == old(camera2)
      ensures mocap == old(mocap) && frameIdx == old(frameIdx)
    {
      hololensHammer := hololensPoint;
      camera1Hammer := camera1Point;
      camera2Hammer := camera2Point;
      mocapHammer := mocapPoint;
      return 0;
    }
  }

  /** A hammer point of -5 truncates to bound 0, not to -1: the plot starts at
      the first row, where a flooring division would start at the last row
      and draw nothing. */
  lemma PlotBoundTruncatesTowardZero(server: DataProcessServer)
    requires |server.mocap| >= 3 && server.mocapHammer == -5
    ensures server.UpdatePlots(25) == server.mocap[0..2]
    ensures Slice(server.mocap, -5 / 10, 20 / 10) == []
  {
  }
}
