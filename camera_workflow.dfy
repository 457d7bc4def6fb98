/** `CameraWorkflow`: the capture loop's session and detection logic. Each
    cycle drains the camera's command queue, captures a frame and, with
    detection on, opens a session at the first tracked result and sends one
    detection per result scoring at least `min_score`; with detection off it
    closes the open session. Preview frames are queued only while the preview
    is on. The tracker, the box scaling, the clock and the JPEG encoder are
    inputs; every send is an entry of one append-only log. */
module Workflow {
  import opened Records
  import SettingsStore
  import Picam3

  const MAIN_SIZE: (int, int) := (2028, 1520)
  const LORES_SIZE: (int, int) := (320, 320)

  /** A box already scaled to the main stream: `(x0, y0, x1, y1)`. */
  datatype Box = Box(x0: int, y0: int, x1: int, y1: int)

  /** One tracked result `(box, track_id, score, clazz)`, with what the
      model takes as input for it: the clock reading `at` (milliseconds since
      the epoch, read when the result is kept) and `image`, the JPEG of the
      box's crop of the main frame. */
  datatype Sighting = Sighting(box: Box, track: int, score: real, clazz: int, at: int, image: Bytes)

  /** What the workflow sends: `SessionState(state, session)` on
      "session_channel", `DetectionMetaDataWithImage` on "detection_channel",
      the states on "detection_state_channel" and "preview_state_channel",
      and JPEG frames put on "streaming_queue". */
  datatype Emission =
    | SessionStateMsg(state: bool, session: string)
    | DetectionOut(metadata: DetectionMetadata, image: Bytes)
    | DetectionStateMsg(detecting: bool)
    | PreviewStateMsg(previewing: bool)
    | StreamingFrame(jpeg: Bytes)

  /** The record sent for a kept result. */
  function Record(session: string, r: Sighting): (m: DetectionMetadata)
    ensures m.session == session && m.detection == r.track
    ensures m.created == m.updated == r.at
    ensures m.score == r.score && m.clazz == r.clazz
    ensures m.width == r.box.x1 - r.box.x0 && m.height == r.box.y1 - r.box.y0
  {
    DetectionMetadata(session, r.track, r.at, r.at, r.score, r.clazz, r.box.x1 - r.box.x0, r.box.y1 - r.box.y0)
  }

  /** The results scoring at least `minScore`, in result order. */
  function Passing(rs: seq<Sighting>, minScore: real): (p: seq<Sighting>)
    ensures |p| <= |rs|
    ensures forall i :: 0 <= i < |p| ==> p[i].score >= minScore
    decreases |rs|
  {
    if rs == [] then []
    else
      var last := rs[|rs| - 1];
      Passing(rs[..|rs| - 1], minScore) + (if last.score >= minScore then [last] else [])
  }

  /** A result is kept exactly when it is one of the results and scores at
      least `minScore`. */
  lemma {:induction false} PassingMembers(rs: seq<Sighting>, minScore: real, x: Sighting)
    ensures x in Passing(rs, minScore) <==> x in rs && x.score >= minScore
    decreases |rs|
  {
    if rs != [] {
      var init := rs[..|rs| - 1];
      PassingMembers(init, minScore, x);
      assert rs == init + [rs[|rs| - 1]];
    }
  }

  /** Keeping results preserves their order: the kept results of a run
      followed by another are those of the first followed by those of the
      second. */
  lemma {:induction false} PassingConcat(a: seq<Sighting>, b: seq<Sighting>, minScore: real)
    ensures Passing(a + b, minScore) == Passing(a, minScore) + Passing(b, minScore)
    decreases |b|
  {
    if b == [] {
      assert a + b == a;
    } else {
      var init := b[..|b| - 1];
      var last := b[|b| - 1];
      assert (a + b)[..|a + b| - 1] == a + init;
      assert (a + b)[|a + b| - 1] == last;
      PassingConcat(a, init, minScore);
    }
  }

  /** The "detection_channel" sends for `rs` within `session`. */
  function Emissions(session: string, rs: seq<Sighting>, minScore: real): (e: seq<Emission>)
    ensures |e| == |Passing(rs, minScore)|
    ensures forall i :: 0 <= i < |e| ==>
      e[i] == DetectionOut(Record(session, Passing(rs, minScore)[i]), Passing(rs, minScore)[i].image)
  {
    var p := Passing(rs, minScore);
    seq(|p|, i requires 0 <= i < |p| => DetectionOut(Record(session, p[i]), p[i].image))
  }

  lemma EmissionsSnoc(session: string, rs: seq<Sighting>, r: Sighting, minScore: real)
    ensures Emissions(session, rs + [r], minScore) ==
      Emissions(session, rs, minScore) + (if r.score >= minScore then [DetectionOut(Record(session, r), r.image)] else [])
  {
    assert (rs + [r])[..|rs + [r]| - 1] == rs;
  }

  /** What the workflow holds and has sent. */
  datatype WorkflowState = WorkflowState(current: Option<string>, detecting: bool, previewing: bool, sent: seq<Emission>)

  /** `save_detections(frame, results)`: open a session named `sessionId`
      when none is open, then send the kept results within the session. */
  ghost function Save(w: WorkflowState, sessionId: string, rs: seq<Sighting>, minScore: real): WorkflowState
  {
    var withSession :=
      if w.current.None? then w.(current := Some(sessionId), sent := w.sent + [SessionStateMsg(true, sessionId)])
      else w;
    withSession.(sent := withSession.sent + Emissions(withSession.current.value, rs, minScore))
  }

  /** One frame's inputs: the JPEG of the low-resolution frame, the JPEG of
      the tracker's annotated frame, and the tracker's results (None when
      they lack boxes, ids, scores or classes and the AttributeError is
      caught). */
  datatype Frame = Frame(lores: Bytes, annotated: Bytes, tracked: Option<seq<Sighting>>)

  /** `process_image()` after the command drain. */
  ghost function Cycle(w: WorkflowState, f: Frame, sessionId: string, minScore: real): WorkflowState
  {
    if w.detecting then
      var w1 := if w.previewing then w.(sent := w.sent + [StreamingFrame(f.annotated)]) else w;
      match f.tracked
      case None => w1
      case Some(rs) => Save(w1, sessionId, rs, minScore)
    else
      var w1 := if w.current.Some? then w.(current := None, sent := w.sent + [SessionStateMsg(false, w.current.value)]) else w;
      if w.previewing then w1.(sent := w1.sent + [StreamingFrame(f.lores)]) else w1
  }

  /** Saving opens a session only when none is open, announcing it before
      any detection; every detection sent lies within the open session, one
      per kept result, in result order; the detection and preview states do
      not change. */
  lemma SaveOpensSessionFirst(w: WorkflowState, sessionId: string, rs: seq<Sighting>, minScore: real)
    ensures var r := Save(w, sessionId, rs, minScore);
      var session := if w.current.Some? then w.current.value else sessionId;
      var opening := if w.current.None? then [SessionStateMsg(true, sessionId)] else [];
      && r.current == Some(session)
      && r.detecting == w.detecting && r.previewing == w.previewing
      && r.sent == w.sent + opening + Emissions(session, rs, minScore)
      && (forall i :: |w.sent| + |opening| <= i < |r.sent| ==>
            r.sent[i].DetectionOut? && r.sent[i].metadata.session == session)
      && |r.sent| == |w.sent| + |opening| + |Passing(rs, minScore)|
  {
  }

  /** Turning detection off closes the open session, announcing it once;
      with no session open nothing goes on "session_channel". */
  lemma DetectionOffClosesSession(w: WorkflowState, f: Frame, sessionId: string, minScore: real)
    requires !w.detecting
    ensures var r := Cycle(w, f, sessionId, minScore);
      && r.current.None?
      && (w.current.Some? ==> r.sent[..|w.sent| + 1] == w.sent + [SessionStateMsg(false, w.current.value)])
      && (w.current.None? ==> forall i :: |w.sent| <= i < |r.sent| ==> !r.sent[i].SessionStateMsg?)
      && r.detecting == w.detecting && r.previewing == w.previewing
  {
  }

  /** Nothing `Save` sends is a streamed frame. */
  lemma SaveStreamsNothing(w: WorkflowState, sessionId: string, rs: seq<Sighting>, minScore: real)
    ensures var r := Save(w, sessionId, rs, minScore);
      && |w.sent| <= |r.sent| && r.sent[..|w.sent|] == w.sent
      && forall i :: |w.sent| <= i < |r.sent| ==> !r.sent[i].StreamingFrame?
  {
    SaveOpensSessionFirst(w, sessionId, rs, minScore);
  }

  /** With detection on, the annotated frame is the first send when the
      preview is on, and no other send is a streamed frame. */
  lemma StreamingWhileDetecting(w: WorkflowState, f: Frame, sessionId: string, minScore: real)
    requires w.detecting
    ensures var r := Cycle(w, f, sessionId, minScore);
      && |w.sent| <= |r.sent| && r.sent[..|w.sent|] == w.sent
      && (w.previewing ==> |w.sent| < |r.sent| && r.sent[|w.sent|] == StreamingFrame(f.annotated))
      && forall i :: |w.sent| + (if w.previewing then 1 else 0) <= i < |r.sent| ==> !r.sent[i].StreamingFrame?
  {
    var w1 := if w.previewing then w.(sent := w.sent + [StreamingFrame(f.annotated)]) else w;
    if f.tracked.Some? {
      SaveStreamsNothing(w1, sessionId, f.tracked.value, minScore);
    }
    var r := Cycle(w, f, sessionId, minScore);
    assert r.sent[..|w1.sent|] == w1.sent;
    assert r.sent[..|w.sent|] == w1.sent[..|w.sent|];
  }

  /** With detection off, the only send that may be a streamed frame is the
      last, the low-resolution frame, and it is there when the preview is on. */
  lemma StreamingWhileIdle(w: WorkflowState, f: Frame, sessionId: string, minScore: real)
    requires !w.detecting
    ensures var r := Cycle(w, f, sessionId, minScore);
      && |w.sent| <= |r.sent| && r.sent[..|w.sent|] == w.sent
      && (w.previewing ==> |w.sent| < |r.sent| && r.sent[|r.sent| - 1] == StreamingFrame(f.lores))
      && forall i :: |w.sent| <= i < |r.sent| - (if w.previewing then 1 else 0) ==> !r.sent[i].StreamingFrame?
  {
  }

  /** A frame is queued for streaming exactly when the preview is on, with
      detection on or off: the annotated frame first thing with detection on,
      the low-resolution frame last thing with it off. */
  lemma PreviewGatesStreaming(w: WorkflowState, f: Frame, sessionId: string, minScore: real)
    ensures var r := Cycle(w, f, sessionId, minScore);
      && |w.sent| <= |r.sent| && r.sent[..|w.sent|] == w.sent
      && (w.previewing <==> exists i :: |w.sent| <= i < |r.sent| && r.sent[i].StreamingFrame?)
      && (w.previewing && w.detecting ==> |w.sent| < |r.sent| && r.sent[|w.sent|] == StreamingFrame(f.annotated))
      && (w.previewing && !w.detecting ==> |w.sent| < |r.sent| && r.sent[|r.sent| - 1] == StreamingFrame(f.lores))
  {
    var r := Cycle(w, f, sessionId, minScore);
    if w.detecting {
      StreamingWhileDetecting(w, f, sessionId, minScore);
      if w.previewing {
        assert r.sent[|w.sent|].StreamingFrame?;
      }
    } else {
      StreamingWhileIdle(w, f, sessionId, minScore);
      if w.previewing {
        assert r.sent[|r.sent| - 1].StreamingFrame?;
      }
    }
  }

  class CameraWorkflow {
    /** `self.current_session`. */
    var currentSession: Option<string>
    var detectionState: bool
    var previewState: bool
    /** Every send, oldest first. */
    var sent: seq<Emission>
    const settings: SettingsStore.SettingsDatabase
    const camera: Picam3.CameraPicam3

    ghost function State(): WorkflowState
      reads this
    {
      WorkflowState(currentSession, detectionState, previewState, sent)
    }

    /** `__init__`: nothing open, detection and preview off, and the camera
        set up with the main and low-resolution stream sizes. */
    constructor(settings: SettingsStore.SettingsDatabase, camera: Picam3.CameraPicam3)
      modifies camera
      ensures State() == WorkflowState(None, false, false, [])
      ensures this.settings == settings && this.camera == camera
      ensures camera.camera == old(camera.camera) + [Picam3.Start(Picam3.PreviewConfiguration(MAIN_SIZE, LORES_SIZE)), Picam3.SetAfMode(Picam3.AfModeContinuous)]
      ensures camera.commandQueue == old(camera.commandQueue) && camera.published == old(camera.published)
    {
      currentSession := None;
      detectionState := false;
      previewState := false;
      sent := [];
      this.settings := settings;
      this.camera := camera;
      new;
      camera.Setup(Picam3.PreviewConfiguration(MAIN_SIZE, LORES_SIZE));
    }

    /** `set_detection_state(state)`: store and send it. */
    method SetDetectionState(state: bool)
      modifies this
      ensures State() == old(State()).(detecting := state, sent := old(sent) + [DetectionStateMsg(state)])
    {
      detectionState := state;
      sent := sent + [DetectionStateMsg(state)];
    }

    /** `get_detection_state()`: send the current value. */
    method GetDetectionState()
      modifies this
      ensures State() == old(State()).(sent := old(sent) + [DetectionStateMsg(detectionState)])
    {
      sent := sent + [DetectionStateMsg(detectionState)];
    }

    /** `set_preview_state(state)`: store and send it. */
    method SetPreviewState(state: bool)
      modifies this
      ensures State() == old(State()).(previewing := state, sent := old(sent) + [PreviewStateMsg(state)])
    {
      previewState := state;
      sent := sent + [PreviewStateMsg(state)];
    }

    /** `get_preview_state()`: send the current value. */
    method GetPreviewState()
      modifies this
      ensures State() == old(State()).(sent := old(sent) + [PreviewStateMsg(previewState)])
    {
      sent := sent + [PreviewStateMsg(previewState)];
    }

    /** `save_detections(frame, results)`; `sessionId` is the clock formatted
        as `%Y%m%d%H%M%S`, and `min_score` is read from the settings for
        every result. */
    method SaveDetections(sessionId: string, rs: seq<Sighting>)
      modifies this
      ensures State() == Save(old(State()), sessionId, rs, settings.settings.minScore)
    {
      if currentSession.None? {
        currentSession := Some(sessionId);
        sent := sent + [SessionStateMsg(true, sessionId)];
      }
      var session := currentSession.value;
      ghost var start := sent;
      var i := 0;
      while i < |rs|
        invariant 0 <= i <= |rs|
        invariant currentSession == Some(session)
        invariant detectionState == old(detectionState) && previewState == old(previewState)
        invariant sent == start + Emissions(session, rs[..i], settings.settings.minScore)
      {
        var r := rs[i];
        var minScore := settings.settings.minScore;
        if r.score >= minScore {
          sent := sent + [DetectionOut(Record(session, r), r.image)];
        }
        EmissionsSnoc(session, rs[..i], r, minScore);
        assert rs[..i + 1] == rs[..i] + [r];
        i := i + 1;
      }
      assert rs[..i] == rs;
    }

    /** `process_image()`: drain the camera's commands, then handle the frame. */
    method ProcessImage(f: Frame, sessionId: string)
      modifies this, camera
      ensures State() == Cycle(old(State()), f, sessionId, settings.settings.minScore)
      ensures camera.camera == old(camera.camera) + Picam3.Applied(old(camera.commandQueue))
      ensures camera.commandQueue == []
    {
      camera.ControlCamera();
      if detectionState {
        if previewState {
          sent := sent + [StreamingFrame(f.annotated)];
        }
        if f.tracked.Some? {
          SaveDetections(sessionId, f.tracked.value);
        }
      } else {
        if currentSession.Some? {
          sent := sent + [SessionStateMsg(false, currentSession.value)];
          currentSession := None;
        }
        if previewState {
          sent := sent + [StreamingFrame(f.lores)];
        }
      }
    }
  }
}
