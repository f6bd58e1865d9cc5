// The start/stop state machine of CameraVirtual (src/virtual/camera_virtual.cpp):
// previewing and recording share one stream of the physical device, which runs at
// the video size while recording.
module CameraVirtual {
  import opened CameraParams
  import opened Common

  /** How getResolution reads a size such as "1280x720"; any function will do. */
  type Parse = string -> Option<(nat, nat)>

  /** preview_ is reduced to worker, paused and the scaler's two sizes; the device
      to whether it streams and the size programmed on it. */
  datatype Cam = Cam(
    preview: bool,              // isPreviewStarted_
    recording: bool,            // isRecordingStarted_
    previewResolution: string,
    recordingResolution: string,
    params: Params,
    worker: bool,
    paused: bool,
    scalerIn: Option<(nat, nat)>,
    scalerOut: Option<(nat, nat)>,
    streaming: bool,
    programmed: string)

  /** Results of the foreign calls a start may make: creating the frame pool,
      programming the device and starting its stream. */
  datatype Foreign = Foreign(pool: bool, program: bool, start: bool)

  const ALL_GOOD := Foreign(true, true, true)

  // ---- the calls ---------------------------------------------------------

  function InSize(c: Cam, video: bool): string
  {
    if video then c.recordingResolution else c.previewResolution
  }

  /** Program the size and start the stream, as far as the device lets it. */
  function Program(c: Cam, size: string, r: Foreign): (Cam, bool)
  {
    if !r.program then (c, false)
    else if !r.start then (c.(programmed := size), false)
    else (c.(programmed := size, streaming := true), true)
  }

  function StartPlaying(c: Cam, video: bool, parse: Parse, r: Foreign): (Cam, bool)
  {
    if parse(InSize(c, video)).None? || parse(c.previewResolution).None? then (c, false)
    else if c.worker then (c, false)
    else
      var d := c.(scalerIn := parse(InSize(c, video)), scalerOut := parse(c.previewResolution));
      if !r.pool then (d, false)
      else Program(d.(worker := true), InSize(c, video), r)
  }

  function StopPlaying(c: Cam): Cam
  {
    (if c.worker then c.(worker := false, scalerIn := None, scalerOut := None) else c).(streaming := false)
  }

  function PausePlaying(c: Cam): Cam { c.(paused := true, streaming := false) }

  function ResumePlaying(c: Cam, video: bool, parse: Parse, r: Foreign): (Cam, bool)
  {
    if parse(InSize(c, video)).None? then (c, false)
    else
      Program(c.(scalerIn := parse(InSize(c, video)), paused := false), InSize(c, video), r)
  }

  function StartPreview(c: Cam, parse: Parse, r: Foreign): (Cam, bool)
  {
    if c.preview || c.recording || "preview-size" !in c.params then (c, false)
    else
      var (d, ok) := StartPlaying(c.(previewResolution := c.params["preview-size"]), false, parse, r);
      (if ok then d.(preview := true) else d, ok)
  }

  function StopPreview(c: Cam): Cam
  {
    var d := c.(preview := false);
    if !d.recording then StopPlaying(d) else d
  }

  function StartRecording(c: Cam, parse: Parse, r: Foreign): (Cam, bool)
  {
    if c.recording || "preview-size" !in c.params then (c, false)
    else
      var d := c.(previewResolution := c.params["preview-size"]);
      if "video-size" !in c.params then (d, false)
      else
        var e := d.(recordingResolution := c.params["video-size"]);
        var (f, ok) := if e.preview then ResumePlaying(PausePlaying(e), true, parse, r)
                       else StartPlaying(e, true, parse, r);
        (if ok then f.(recording := true) else f, ok)
  }

  function StopRecording(c: Cam, parse: Parse, r: Foreign): Cam
  {
    var d := c.(recording := false);
    if d.preview then ResumePlaying(PausePlaying(d), false, parse, r).0 else StopPlaying(d)
  }

  datatype Call = CallStartPreview | CallStopPreview | CallStartRecording | CallStopRecording
                | CallSetParameters(text: string)

  function Apply(c: Cam, call: Call, parse: Parse, r: Foreign): Cam
  {
    match call
    case CallStartPreview => StartPreview(c, parse, r).0
    case CallStopPreview => StopPreview(c)
    case CallStartRecording => StartRecording(c, parse, r).0
    case CallStopRecording => StopRecording(c, parse, r)
    case CallSetParameters(text) => c.(params := SetParameters(c.params, text).0)
  }

  // ---- with a device that does what it is told ---------------------------

  /** Between calls: the worker runs and the device streams exactly when preview or
      recording is on, nothing is paused, the scaler takes frames of the size programmed
      on the device, and that is the recording size while recording and else the
      preview size. */
  ghost predicate Consistent(c: Cam, parse: Parse)
  {
    && (c.worker <==> c.preview || c.recording)
    && (c.streaming <==> c.preview || c.recording)
    && !c.paused
    && (c.worker ==> c.scalerIn.Some? && parse(c.programmed) == c.scalerIn && c.scalerOut.Some?)
    && (c.streaming ==> c.programmed == InSize(c, c.recording))
  }

  /** A call that switches the running stream to another size reads a size text
      that parses, and a startRecording that finds no video size has not replaced the
      saved preview size by another before it gives up. */
  predicate StaysInStep(c: Cam, call: Call, parse: Parse)
  {
    match call
    case CallStartRecording =>
      if c.preview && !c.recording && "preview-size" in c.params then
        if "video-size" in c.params then parse(c.params["video-size"]).Some?
        else c.params["preview-size"] == c.previewResolution
      else true
    case CallStopRecording => c.preview ==> parse(c.previewResolution).Some?
    case _ => true
  }

  /** With all foreign calls succeeding, a call keeps the state consistent exactly
      when it stays in step: it does not have to switch a running stream to a size
      text that getResolution cannot read, nor replaces the saved preview size of a
      running preview without switching. */
  lemma CallKeepsConsistent(c: Cam, call: Call, parse: Parse)
    requires Consistent(c, parse)
    ensures Consistent(Apply(c, call, parse, ALL_GOOD), parse) <==> StaysInStep(c, call, parse)
  {
  }

  function Run(c: Cam, calls: seq<Call>, parse: Parse): Cam
    decreases |calls|
  {
    if calls == [] then c else Run(Apply(c, calls[0], parse, ALL_GOOD), calls[1..], parse)
  }

  ghost predicate ConsistentThroughout(c: Cam, calls: seq<Call>, parse: Parse)
    decreases |calls|
  {
    Consistent(c, parse)
    && (calls != [] ==> ConsistentThroughout(Apply(c, calls[0], parse, ALL_GOOD), calls[1..], parse))
  }

  predicate StaysInStepThroughout(c: Cam, calls: seq<Call>, parse: Parse)
    decreases |calls|
  {
    calls == [] ||
    (StaysInStep(c, calls[0], parse)
     && StaysInStepThroughout(Apply(c, calls[0], parse, ALL_GOOD), calls[1..], parse))
  }

  /** Over any sequence of calls the state is consistent before and after every one
      of them exactly when every call stays in step. */
  lemma {:induction false} RunStaysConsistent(c: Cam, calls: seq<Call>, parse: Parse)
    requires Consistent(c, parse)
    ensures ConsistentThroughout(c, calls, parse) <==> StaysInStepThroughout(c, calls, parse)
    decreases |calls|
  {
    hide Apply, Consistent, StaysInStep;
    if calls != [] {
      var d := Apply(c, calls[0], parse, ALL_GOOD);
      CallKeepsConsistent(c, calls[0], parse);
      if Consistent(d, parse) { RunStaysConsistent(d, calls[1..], parse); }
    }
  }

  lemma {:induction false} EndsConsistent(c: Cam, calls: seq<Call>, parse: Parse)
    requires ConsistentThroughout(c, calls, parse)
    ensures Consistent(Run(c, calls, parse), parse)
    decreases |calls|
  {
    hide Apply, Consistent;
    if calls != [] { EndsConsistent(Apply(c, calls[0], parse, ALL_GOOD), calls[1..], parse); }
  }

  /** Every size text in the parameters parses, and so does the one saved; without a
      video size, a running preview has the preview size. */
  ghost predicate SizesParse(c: Cam, parse: Parse)
  {
    && ("preview-size" in c.params ==> parse(c.params["preview-size"]).Some?)
    && ("video-size" in c.params ==> parse(c.params["video-size"]).Some?)
    && parse(c.previewResolution).Some?
    && ("preview-size" in c.params && "video-size" !in c.params && c.preview ==>
          c.params["preview-size"] == c.previewResolution)
  }

  /** Callers that leave the parameters alone cannot bring that about: from a state
      whose size texts parse, any sequence of starts and stops stays consistent. */
  lemma {:induction false} StartsAndStopsConsistent(c: Cam, calls: seq<Call>, parse: Parse)
    requires Consistent(c, parse) && SizesParse(c, parse)
    requires forall k :: 0 <= k < |calls| ==> !calls[k].CallSetParameters?
    ensures ConsistentThroughout(c, calls, parse)
    decreases |calls|
  {
    if calls != [] {
      hide Consistent;
      var d := Apply(c, calls[0], parse, ALL_GOOD);
      CallKeepsConsistent(c, calls[0], parse);
      KeepsSizes(c, calls[0], parse);
      StartsAndStopsConsistent(d, calls[1..], parse);
    }
  }

  lemma KeepsSizes(c: Cam, call: Call, parse: Parse)
    requires SizesParse(c, parse) && !call.CallSetParameters?
    ensures SizesParse(Apply(c, call, parse, ALL_GOOD), parse) && StaysInStep(c, call, parse)
  {
    match call
    case CallStartPreview =>
    case CallStopPreview =>
    case CallStartRecording =>
    case CallStopRecording =>
  }

  /** A size text that does not parse, set while previewing, leaves the stream
      stopped and paused with preview still reported as on. */
  lemma UnparsedSizeStallsPreview(parse: Parse, c: Cam)
    requires Consistent(c, parse) && c.preview && c.recording && parse(c.previewResolution).None?
    ensures var d := Apply(c, CallStopRecording, parse, ALL_GOOD);
            d.preview && d.worker && d.paused && !d.streaming
  {
  }

  /** A new virtual camera with the parameters init left. */
  function Constructed(params: Params): Cam
  {
    Cam(false, false, "1280x720", "3840x2160", params, false, false, None, None, false, "")
  }

  const JUNK_SIZE: seq<(string, string)> := [("preview-size", "junk"), (RATE, "30"), (RANGE, "30000,30000")]

  lemma JunkAccepted(m: Params)
    ensures var (n, ok) := SetParameters(m, ItemsText(JUNK_SIZE));
            ok && n == m["preview-size" := "junk"][RATE := "30"][RANGE := "30000,30000"]
  {
    hide Update, ItemsText;
    assert |RATE| == 18 && |RANGE| == 17 && |"preview-size"| == 12;
    assert CleanItems(JUNK_SIZE) by { JunkClean(); }
    UpdateItems(m, JUNK_SIZE);
    UpdateItems(map[], JUNK_SIZE);
    JunkSet(m);
    JunkSet(map[]);
  }

  lemma JunkClean()
    ensures CleanItems(JUNK_SIZE)
  {
  }

  lemma JunkSet(m: Params)
    ensures SetAll(m, JUNK_SIZE) == m["preview-size" := "junk"][RATE := "30"][RANGE := "30000,30000"]
  {
    var last := [(RANGE, "30000,30000")];
    var tail := [(RATE, "30"), (RANGE, "30000,30000")];
    var m1 := m["preview-size" := "junk"];
    assert JUNK_SIZE[0] == ("preview-size", "junk") && JUNK_SIZE[1..] == tail;
    assert tail[1..] == last && last[1..] == [];
    assert SetAll(m1[RATE := "30"], last) == m1[RATE := "30"][RANGE := "30000,30000"];
    assert SetAll(m1, tail) == SetAll(m1[RATE := "30"], last);
  }

  /** Such a run from the constructed state: preview on, a size that does not parse
      set and accepted, recording on and off again. */
  lemma UnparsedSizeRun(parse: Parse, params: Params)
    requires "preview-size" in params && parse(params["preview-size"]).Some?
    requires "video-size" in params && parse(params["video-size"]).Some?
    requires parse("junk").None?
    ensures var calls := [CallStartPreview, CallSetParameters(ItemsText(JUNK_SIZE)),
                          CallStartRecording, CallStopRecording];
            var d := Run(Constructed(params), calls, parse);
            d.preview && d.worker && d.paused && !d.streaming
  {
    hide SetParameters, ItemsText;
    var text := ItemsText(JUNK_SIZE);
    JunkAccepted(params);
    assert |RATE| == 18 && |RANGE| == 17 && |"preview-size"| == 12 && |"video-size"| == 10;
    var c1 := Apply(Constructed(params), CallStartPreview, parse, ALL_GOOD);
    var c2 := Apply(c1, CallSetParameters(text), parse, ALL_GOOD);
    assert c2.preview && c2.worker && c2.params["preview-size"] == "junk";
    assert c2.params["video-size"] == params["video-size"];
    var c3 := Apply(c2, CallStartRecording, parse, ALL_GOOD);
    assert c3.preview && c3.recording && c3.worker && c3.previewResolution == "junk";
    RunFour(Constructed(params), CallStartPreview, CallSetParameters(text), CallStartRecording,
            CallStopRecording, parse);
  }

  lemma RunFirst(c: Cam, call: Call, rest: seq<Call>, parse: Parse)
    ensures Run(c, [call] + rest, parse) == Run(Apply(c, call, parse, ALL_GOOD), rest, parse)
  {
    hide Apply;
    assert ([call] + rest)[1..] == rest;
  }

  lemma RunFour(c: Cam, a: Call, b: Call, d: Call, e: Call, parse: Parse)
    ensures Run(c, [a, b, d, e], parse) ==
            Apply(Apply(Apply(Apply(c, a, parse, ALL_GOOD), b, parse, ALL_GOOD), d, parse, ALL_GOOD), e, parse,
              ALL_GOOD)
  {
    hide Apply;
    var c1 := Apply(c, a, parse, ALL_GOOD);
    var c2 := Apply(c1, b, parse, ALL_GOOD);
    var c3 := Apply(c2, d, parse, ALL_GOOD);
    RunFirst(c, a, [b, d, e], parse);
    RunFirst(c1, b, [d, e], parse);
    RunFirst(c2, d, [e], parse);
    RunFirst(c3, e, [], parse);
    assert [a, b, d, e] == [a] + [b, d, e] && [b, d, e] == [b] + [d, e];
    assert [d, e] == [d] + [e] && [e] == [e] + [];
  }

  /** A startRecording without a video size, while a preview runs at another size
      than the parameters now say, leaves that other size saved. */
  lemma NoVideoSizeReplacesSaved(c: Cam, parse: Parse)
    requires Consistent(c, parse) && c.preview && !c.recording && "video-size" !in c.params
    requires "preview-size" in c.params && c.params["preview-size"] != c.previewResolution
    ensures var (d, ok) := StartRecording(c, parse, ALL_GOOD);
            !ok && d.streaming && d.programmed == c.previewResolution != d.previewResolution
  {
  }

  // ---- with a device that may fail ---------------------------------------

  /** A flag that is set implies a running worker. */
  ghost predicate FlagsBacked(c: Cam) { c.preview || c.recording ==> c.worker }

  lemma CallKeepsFlagsBacked(c: Cam, call: Call, parse: Parse, r: Foreign)
    requires FlagsBacked(c)
    ensures FlagsBacked(Apply(c, call, parse, r))
  {
  }

  /** A run in which each call comes with the results of its foreign calls. */
  function RunWith(c: Cam, calls: seq<(Call, Foreign)>, parse: Parse): Cam
    decreases |calls|
  {
    if calls == [] then c else RunWith(Apply(c, calls[0].0, parse, calls[0].1), calls[1..], parse)
  }

  lemma {:induction false} RunKeepsFlagsBacked(c: Cam, calls: seq<(Call, Foreign)>, parse: Parse)
    requires FlagsBacked(c)
    ensures FlagsBacked(RunWith(c, calls, parse))
    decreases |calls|
  {
    if calls != [] {
      CallKeepsFlagsBacked(c, calls[0].0, parse, calls[0].1);
      RunKeepsFlagsBacked(Apply(c, calls[0].0, parse, calls[0].1), calls[1..], parse);
    }
  }

  /** Whatever the state before and the device, a start that succeeds streams at the
      size its parameter says, and scales frames of that size. */
  lemma StartsAtItsSize(c: Cam, parse: Parse, r: Foreign)
    ensures var (d, ok) := StartPreview(c, parse, r);
            ok ==> && d.preview && !d.recording && d.streaming && "preview-size" in c.params
                   && d.programmed == d.previewResolution == c.params["preview-size"]
                   && d.scalerIn == d.scalerOut == parse(c.params["preview-size"])
    ensures var (d, ok) := StartRecording(c, parse, r);
            ok ==> && d.preview == c.preview && d.recording && d.streaming && "video-size" in c.params
                   && d.programmed == d.recordingResolution == c.params["video-size"]
                   && d.scalerIn == parse(c.params["video-size"])
                   && "preview-size" in c.params && d.previewResolution == c.params["preview-size"]
  {
  }

  /** Exactly when a start succeeds: not started already, nor, for a preview, while
      recording; with the sizes there and readable; and from rest with no worker left
      over and a frame pool made. */
  lemma StartSucceedsIff(c: Cam, parse: Parse, r: Foreign)
    ensures StartPreview(c, parse, r).1 <==>
              && !c.preview && !c.recording && !c.worker && SizeReads(c, "preview-size", parse)
              && r == ALL_GOOD
    ensures StartRecording(c, parse, r).1 <==>
              && !c.recording && "preview-size" in c.params && SizeReads(c, "video-size", parse)
              && r.program && r.start
              && (!c.preview ==> !c.worker && SizeReads(c, "preview-size", parse) && r.pool)
  {
  }

  /** A stopRecording while previewing goes back to the saved preview size if that
      parses and the device obeys; it stays paused exactly when the size does not
      parse, and stops streaming when the device refuses. */
  lemma StopsAtPreviewSize(c: Cam, parse: Parse, r: Foreign)
    requires c.preview
    ensures var d, known := StopRecording(c, parse, r), parse(c.previewResolution).Some?;
            && (d.streaming <==> known && r.program && r.start)
            && (d.streaming ==> d.programmed == c.previewResolution)
            && (d.paused <==> !known)
            && d.scalerIn == (if known then parse(c.previewResolution) else c.scalerIn)
            && d.preview && !d.recording && d.worker == c.worker
  {
  }

  /** While previewing or recording, frames are scaled to the saved preview size. */
  ghost predicate ScalesToPreview(c: Cam, parse: Parse)
  {
    c.preview || c.recording ==> c.scalerOut == parse(c.previewResolution)
  }

  /** A startRecording while previewing that saves a preview size of other dimensions;
      the scaler keeps the ones it was started with. */
  predicate ResavesPreview(c: Cam, call: Call, parse: Parse)
  {
    && call.CallStartRecording? && c.preview && !c.recording && "preview-size" in c.params
    && parse(c.params["preview-size"]) != parse(c.previewResolution)
  }

  lemma PlayScales(c: Cam, video: bool, parse: Parse, r: Foreign)
    ensures var (d, ok) := StartPlaying(c, video, parse, r);
            && d.preview == c.preview && d.recording == c.recording
            && (ok ==> d.scalerOut == parse(c.previewResolution) == parse(d.previewResolution))
  {
  }

  lemma ResumeScales(c: Cam, video: bool, parse: Parse, r: Foreign)
    ensures var d := ResumePlaying(PausePlaying(c), video, parse, r).0;
            && d.preview == c.preview && d.recording == c.recording
            && d.scalerOut == c.scalerOut && d.previewResolution == c.previewResolution
  {
  }

  lemma RecordingKeepsScale(c: Cam, parse: Parse, r: Foreign)
    requires ScalesToPreview(c, parse)
    ensures ScalesToPreview(StartRecording(c, parse, r).0, parse) <==> !ResavesPreview(c, CallStartRecording, parse)
  {
    hide StartPlaying, ResumePlaying, PausePlaying;
    if "preview-size" in c.params && "video-size" in c.params {
      var e := c.(previewResolution := c.params["preview-size"], recordingResolution := c.params["video-size"]);
      PlayScales(e, true, parse, r);
      ResumeScales(e, true, parse, r);
    }
  }

  /** Only those calls break it, whatever the device answers. */
  lemma CallKeepsScale(c: Cam, call: Call, parse: Parse, r: Foreign)
    requires FlagsBacked(c) && ScalesToPreview(c, parse)
    ensures ScalesToPreview(Apply(c, call, parse, r), parse) <==> !ResavesPreview(c, call, parse)
  {
    hide StartRecording, SetParameters;
    match call
    case CallStartPreview =>
    case CallStopPreview =>
    case CallStartRecording => RecordingKeepsScale(c, parse, r);
    case CallStopRecording =>
    case CallSetParameters(text) =>
  }

  /** A worker that no flag accounts for. */
  predicate Stale(c: Cam) { c.worker && !c.preview && !c.recording }

  predicate SizeReads(c: Cam, key: string, parse: Parse) { key in c.params && parse(c.params[key]).Some? }

  /** A start from rest whose sizes are there and parse and whose frame pool is made,
      but which the device refuses to program or to start. */
  predicate FailsAtDevice(c: Cam, call: Call, parse: Parse, r: Foreign)
  {
    && !c.preview && !c.recording && r.pool && !(r.program && r.start)
    && SizeReads(c, "preview-size", parse)
    && (call.CallStartPreview? || (call.CallStartRecording? && SizeReads(c, "video-size", parse)))
  }

  /** The calls that leave a stale worker behind are exactly those. */
  lemma LeavesStaleWorker(c: Cam, call: Call, parse: Parse, r: Foreign)
    requires FlagsBacked(c) && !Stale(c)
    ensures Stale(Apply(c, call, parse, r)) <==> FailsAtDevice(c, call, parse, r)
  {
    match call
    case CallStartPreview =>
    case CallStopPreview =>
    case CallStartRecording =>
    case CallStopRecording =>
    case CallSetParameters(text) =>
  }

  /** A new camera whose device takes the size and then does not start. */
  lemma FailedStartLeavesStale(params: Params, parse: Parse)
    requires SizeReads(Constructed(params), "preview-size", parse)
    ensures Stale(Apply(Constructed(params), CallStartPreview, parse, Foreign(true, true, false)))
  {
    LeavesStaleWorker(Constructed(params), CallStartPreview, parse, Foreign(true, true, false));
  }

  /** And it stays exactly until a stop is called. */
  lemma StaleUntilStop(c: Cam, call: Call, parse: Parse, r: Foreign)
    requires Stale(c)
    ensures Stale(Apply(c, call, parse, r)) <==> !call.CallStopPreview? && !call.CallStopRecording?
  {
    match call
    case CallStartPreview =>
    case CallStopPreview =>
    case CallStartRecording =>
    case CallStopRecording =>
    case CallSetParameters(text) =>
  }

  /** After a start that failed at the device the worker is left running with both
      flags off, and no start succeeds, whatever the device answers, until a stop. */
  lemma StaleWorkerBlocksStarts(c: Cam, parse: Parse, r: Foreign)
    requires c.worker && !c.preview && !c.recording
    ensures !StartPreview(c, parse, r).1 && !StartRecording(c, parse, r).1
    ensures var d := StopPreview(c); !d.worker && !d.streaming
    ensures var d := StopRecording(c, parse, r); !d.worker && !d.streaming
  {
  }

  /** What every call keeps, for the methods below. */
  lemma CallKeeps(c: Cam, call: Call, parse: Parse, r: Foreign)
    ensures FlagsBacked(c) ==> FlagsBacked(Apply(c, call, parse, r))
    ensures r == ALL_GOOD && Consistent(c, parse) ==>
              (Consistent(Apply(c, call, parse, r), parse) <==> StaysInStep(c, call, parse))
  {
    hide Apply, FlagsBacked, Consistent, StaysInStep;
    if FlagsBacked(c) { CallKeepsFlagsBacked(c, call, parse, r); }
    if Consistent(c, parse) { CallKeepsConsistent(c, call, parse); }
  }

  // ---- the object --------------------------------------------------------

  class CameraVirtual {
    var isPreviewStarted: bool
    var isRecordingStarted: bool
    var previewResolution: string
    var recordingResolution: string
    var params: Params
    var worker: bool
    var paused: bool
    var scalerIn: Option<(nat, nat)>
    var scalerOut: Option<(nat, nat)>
    var streaming: bool
    var programmed: string
    const getResolution: Parse

    function State(): Cam
      reads this
    {
      Cam(isPreviewStarted, isRecordingStarted, previewResolution, recordingResolution, params,
          worker, paused, scalerIn, scalerOut, streaming, programmed)
    }

    constructor (params: Params, getResolution: Parse)
      ensures State() == Constructed(params) && this.getResolution == getResolution
      ensures Consistent(State(), getResolution) && FlagsBacked(State())
    {
      isPreviewStarted, isRecordingStarted := false, false;
      previewResolution, recordingResolution := "1280x720", "3840x2160";
      this.params, this.getResolution := params, getResolution;
      worker, paused, scalerIn, scalerOut := false, false, None, None;
      streaming, programmed := false, "";
    }

    method SetParametersAndStart(size: string, r: Foreign) returns (ok: bool)
      modifies this
      ensures (State(), ok) == Program(old(State()), size, r)
    {
      if !r.program { return false; }
      programmed := size;
      if !r.start { return false; }
      streaming := true;
      ok := true;
    }

    method Play(bVideo: bool, r: Foreign) returns (ok: bool)
      modifies this
      ensures (State(), ok) == StartPlaying(old(State()), bVideo, getResolution, r)
    {
      var size := if bVideo then recordingResolution else previewResolution;
      if getResolution(size).None? || getResolution(previewResolution).None? { return false; }
      if worker { return false; }
      scalerIn, scalerOut := getResolution(size), getResolution(previewResolution);
      if !r.pool { return false; }
      worker := true;
      ok := SetParametersAndStart(size, r);
    }

    method Stop()
      modifies this
      ensures State() == StopPlaying(old(State()))
    {
      if worker { worker, scalerIn, scalerOut := false, None, None; }
      streaming := false;
    }

    method Resume(bVideo: bool, r: Foreign) returns (ok: bool)
      modifies this
      ensures (State(), ok) == ResumePlaying(old(State()), bVideo, getResolution, r)
    {
      var size := if bVideo then recordingResolution else previewResolution;
      if getResolution(size).None? { return false; }
      scalerIn, paused := getResolution(size), false;
      ok := SetParametersAndStart(size, r);
    }

    /** pausePlaying, then resumePlaying. */
    method Switch(bVideo: bool, r: Foreign) returns (ok: bool)
      modifies this
      ensures (State(), ok) == ResumePlaying(PausePlaying(old(State())), bVideo, getResolution, r)
    {
      paused, streaming := true, false;
      ok := Resume(bVideo, r);
    }

    method PreviewOn(r: Foreign) returns (ok: bool)
      modifies this
      ensures (State(), ok) == StartPreview(old(State()), getResolution, r)
      ensures old(FlagsBacked(State())) ==> FlagsBacked(State())
      ensures r == ALL_GOOD && old(Consistent(State(), getResolution)) ==>
                (Consistent(State(), getResolution) <==> old(StaysInStep(State(), CallStartPreview, getResolution)))
    {
      CallKeeps(State(), CallStartPreview, getResolution, r);
      hide Consistent, FlagsBacked, StaysInStep, StartPlaying, StopPlaying, ResumePlaying;
      if isPreviewStarted || isRecordingStarted || "preview-size" !in params { return false; }
      previewResolution := params["preview-size"];
      ok := Play(false, r);
      if ok { isPreviewStarted := true; }
    }

    method PreviewOff()
      modifies this
      ensures State() == StopPreview(old(State()))
      ensures old(FlagsBacked(State())) ==> FlagsBacked(State())
      ensures old(Consistent(State(), getResolution)) ==>
                (Consistent(State(), getResolution) <==> old(StaysInStep(State(), CallStopPreview, getResolution)))
    {
      CallKeeps(State(), CallStopPreview, getResolution, ALL_GOOD);
      hide Consistent, FlagsBacked, StaysInStep, StartPlaying, StopPlaying, ResumePlaying;
      isPreviewStarted := false;
      if !isRecordingStarted { Stop(); }
    }

    method RecordingOn(r: Foreign) returns (ok: bool)
      modifies this
      ensures (State(), ok) == StartRecording(old(State()), getResolution, r)
      ensures old(FlagsBacked(State())) ==> FlagsBacked(State())
      ensures r == ALL_GOOD && old(Consistent(State(), getResolution)) ==>
                (Consistent(State(), getResolution) <==> old(StaysInStep(State(), CallStartRecording, getResolution)))
    {
      CallKeeps(State(), CallStartRecording, getResolution, r);
      hide Consistent, FlagsBacked, StaysInStep, StartPlaying, StopPlaying, ResumePlaying;
      if isRecordingStarted || "preview-size" !in params { return false; }
      previewResolution := params["preview-size"];
      if "video-size" !in params { return false; }
      recordingResolution := params["video-size"];
      if isPreviewStarted {
        ok := Switch(true, r);
      } else {
        ok := Play(true, r);
      }
      if ok { isRecordingStarted := true; }
    }

    method RecordingOff(r: Foreign)
      modifies this
      ensures State() == StopRecording(old(State()), getResolution, r)
      ensures old(FlagsBacked(State())) ==> FlagsBacked(State())
      ensures r == ALL_GOOD && old(Consistent(State(), getResolution)) ==>
                (Consistent(State(), getResolution) <==> old(StaysInStep(State(), CallStopRecording, getResolution)))
    {
      CallKeeps(State(), CallStopRecording, getResolution, r);
      hide Consistent, FlagsBacked, StaysInStep, StartPlaying, StopPlaying, ResumePlaying;
      isRecordingStarted := false;
      if isPreviewStarted {
        var _ := Switch(false, r);
      } else {
        Stop();
      }
    }
  }
}
