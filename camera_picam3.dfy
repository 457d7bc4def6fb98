/** `CameraPicam3`: the Raspberry Pi camera module 3 driver. Protocol
    messages queue autofocus commands; once per capture cycle the workflow
    calls `control_camera`, which applies the queued commands to the camera in
    arrival order and empties the queue. The camera is modelled by the log
    of control actions applied to it. */
module Picam3 {
  import opened Records

  /** `picam3_pb2.AutofocusMode`, as the app sends it. */
  datatype AutofocusMode = ManualMode | ContinuousMode | TriggeredMode

  /** `controls.AfModeEnum`, as libcamera takes it. */
  datatype AfMode = AfModeManual | AfModeContinuous | AfModeAuto

  /** `picam3_pb2.AutofocusState`, as the app receives it. */
  datatype AutofocusState = IdleState | ScanningState | FocussedState | FailedState

  /** `controls.AfStateEnum`: Idle = 0, Scanning = 1, Focused = 2, Failed = 3. */
  datatype AfState = AfStateIdle | AfStateScanning | AfStateFocused | AfStateFailed

  /** The `mode` field of a decoded "picam3.mode.set": one of the protocol's
      modes, or a value the `modes` table does not list. */
  datatype ModeValue = Listed(mode: AutofocusMode) | Unlisted(code: int)

  /** `self.modes` in the protocol-to-libcamera direction. */
  function Modes(p: AutofocusMode): (h: AfMode)
    ensures p == ManualMode <==> h == AfModeManual
    ensures p == ContinuousMode <==> h == AfModeContinuous
    ensures p == TriggeredMode <==> h == AfModeAuto
  {
    match p
    case ManualMode => AfModeManual
    case ContinuousMode => AfModeContinuous
    case TriggeredMode => AfModeAuto
  }

  /** `self.modes.inverse`. */
  function ModesInverse(h: AfMode): (p: AutofocusMode)
    ensures Modes(p) == h
  {
    match h
    case AfModeManual => ManualMode
    case AfModeContinuous => ContinuousMode
    case AfModeAuto => TriggeredMode
  }

  /** `self.af_states` in the protocol-to-libcamera direction. */
  function AfStates(p: AutofocusState): (h: AfState)
    ensures p == IdleState <==> h == AfStateIdle
    ensures p == ScanningState <==> h == AfStateScanning
    ensures p == FocussedState <==> h == AfStateFocused
    ensures p == FailedState <==> h == AfStateFailed
  {
    match p
    case IdleState => AfStateIdle
    case ScanningState => AfStateScanning
    case FocussedState => AfStateFocused
    case FailedState => AfStateFailed
  }

  /** `self.af_states.inverse`. */
  function AfStatesInverse(h: AfState): (p: AutofocusState)
    ensures AfStates(p) == h
  {
    match h
    case AfStateIdle => IdleState
    case AfStateScanning => ScanningState
    case AfStateFocused => FocussedState
    case AfStateFailed => FailedState
  }

  /** Both tables are bijections: each direction undoes the other. */
  lemma ModesBijective(p: AutofocusMode, h: AfMode)
    ensures ModesInverse(Modes(p)) == p
    ensures Modes(ModesInverse(h)) == h
    ensures Modes(p) == h <==> ModesInverse(h) == p
  {
  }

  lemma AfStatesBijective(p: AutofocusState, h: AfState)
    ensures AfStatesInverse(AfStates(p)) == p
    ensures AfStates(AfStatesInverse(h)) == h
    ensures AfStates(p) == h <==> AfStatesInverse(h) == p
  {
  }

  /** `controls.AfStateEnum(code)`; ValueError for a code it does not define. */
  function AfStateOf(code: int): (r: Result<AfState>)
    ensures r.Success? <==> 0 <= code <= 3
    ensures !(0 <= code <= 3) ==> r == Failure(ValueError)
    ensures code == 0 <==> r == Success(AfStateIdle)
    ensures code == 1 <==> r == Success(AfStateScanning)
    ensures code == 2 <==> r == Success(AfStateFocused)
    ensures code == 3 <==> r == Success(AfStateFailed)
  {
    if code == 0 then Success(AfStateIdle)
    else if code == 1 then Success(AfStateScanning)
    else if code == 2 then Success(AfStateFocused)
    else if code == 3 then Success(AfStateFailed)
    else Failure(ValueError)
  }

  /** A queued command: `(AUTOFOCUS_MODE, af_mode)`, `(MANUAL_FOCUS,
      position)` or `(TRIGGER_AUTOFOCUS, None)`. */
  datatype Command = AutofocusModeCmd(afMode: AfMode) | ManualFocusCmd(position: real) | TriggerAutofocusCmd

  const AUTOFOCUS_MODE: string := "autofocusMode"
  const MANUAL_FOCUS: string := "manualFocus"
  const TRIGGER_AUTOFOCUS: string := "triggerAutofocus"

  /** The tag a command carries as its first element. */
  function Tag(c: Command): (t: string)
    ensures c.AutofocusModeCmd? <==> t == AUTOFOCUS_MODE
    ensures c.ManualFocusCmd? <==> t == MANUAL_FOCUS
    ensures c.TriggerAutofocusCmd? <==> t == TRIGGER_AUTOFOCUS
  {
    match c
    case AutofocusModeCmd(_) => AUTOFOCUS_MODE
    case ManualFocusCmd(_) => MANUAL_FOCUS
    case TriggerAutofocusCmd => TRIGGER_AUTOFOCUS
  }

  /** The camera configuration `create_preview_configuration` returns: RGB888
      main and low-resolution streams of the given sizes. */
  datatype CameraConfig = PreviewConfiguration(main: (int, int), lores: (int, int))

  /** What is done to the camera: `start(config)`, `set_controls({"AfMode": m})`,
      `set_controls({"LensPosition": p})`, `autofocus_cycle(wait=False)`. */
  datatype CameraAction = Start(config: CameraConfig) | SetAfMode(afMode: AfMode) | SetLensPosition(position: real) | AutofocusCycle

  /** The one camera action `control_camera` performs for a command. */
  function Action(c: Command): (a: CameraAction)
    ensures Tag(c) == AUTOFOCUS_MODE ==> a == SetAfMode(c.afMode)
    ensures Tag(c) == MANUAL_FOCUS ==> a == SetLensPosition(c.position)
    ensures Tag(c) == TRIGGER_AUTOFOCUS ==> a == AutofocusCycle
  {
    match c
    case AutofocusModeCmd(m) => SetAfMode(m)
    case ManualFocusCmd(p) => SetLensPosition(p)
    case TriggerAutofocusCmd => AutofocusCycle
  }

  /** The camera actions for a run of commands, in order. */
  function Applied(cs: seq<Command>): (r: seq<CameraAction>)
    ensures |r| == |cs|
    ensures forall i :: 0 <= i < |cs| ==> r[i] == Action(cs[i])
  {
    seq(|cs|, i requires 0 <= i < |cs| => Action(cs[i]))
  }

  /** Draining two batches one after the other, or both at once, applies the
      same actions in the same order. */
  lemma AppliedConcat(a: seq<Command>, b: seq<Command>)
    ensures Applied(a + b) == Applied(a) + Applied(b)
  {
    var l := Applied(a + b);
    var r := Applied(a) + Applied(b);
    assert |l| == |r|;
    forall i | 0 <= i < |l|
      ensures l[i] == r[i]
    {
      if i < |a| {
        assert (a + b)[i] == a[i];
      } else {
        assert (a + b)[i] == b[i - |a|];
      }
    }
  }

  /** A "picam3.frame" message: the protocol autofocus state, the lens
      position and the frame bytes. */
  datatype FrameMsg = FrameMsg(afState: AutofocusState, position: real, frame: Bytes)

  class CameraPicam3 {
    /** `self.command_queue`. */
    var commandQueue: seq<Command>
    /** Every action applied to the camera, oldest first. */
    var camera: seq<CameraAction>
    /** The "picam3.frame" messages published, oldest first. */
    var published: seq<FrameMsg>

    constructor()
      ensures commandQueue == [] && camera == [] && published == []
    {
      commandQueue := [];
      camera := [];
      published := [];
    }

    /** `setup(picam2, config)`: start the camera, then continuous autofocus. */
    method Setup(config: CameraConfig)
      modifies this
      ensures camera == old(camera) + [Start(config), SetAfMode(AfModeContinuous)]
      ensures commandQueue == old(commandQueue) && published == old(published)
    {
      camera := camera + [Start(config)];
      camera := camera + [SetAfMode(AfModeContinuous)];
    }

    /** `handle_message`, given the decoded message's fields: each recognised
        identifier queues one command at the tail; an unlisted mode fails
        the `modes` lookup (KeyError) before anything is queued; any other
        identifier is ignored. */
    method HandleMessage(identifier: string, mode: ModeValue, position: real) returns (status: Outcome)
      modifies this
      ensures identifier == "picam3.mode.set" && mode.Listed? ==>
        status == Ok && commandQueue == old(commandQueue) + [AutofocusModeCmd(Modes(mode.mode))]
      ensures identifier == "picam3.mode.set" && mode.Unlisted? ==>
        status == Failed(KeyError) && commandQueue == old(commandQueue)
      ensures identifier == "picam3.position.set" ==>
        status == Ok && commandQueue == old(commandQueue) + [ManualFocusCmd(position)]
      ensures identifier == "picam3.focus.trigger" ==>
        status == Ok && commandQueue == old(commandQueue) + [TriggerAutofocusCmd]
      ensures identifier !in {"picam3.mode.set", "picam3.position.set", "picam3.focus.trigger"} ==>
        status == Ok && commandQueue == old(commandQueue)
      ensures camera == old(camera) && published == old(published)
    {
      status := Ok;
      if identifier == "picam3.mode.set" {
        if mode.Unlisted? {
          return Failed(KeyError);
        }
        var afMode := Modes(mode.mode);
        commandQueue := commandQueue + [AutofocusModeCmd(afMode)];
      } else if identifier == "picam3.position.set" {
        commandQueue := commandQueue + [ManualFocusCmd(position)];
      } else if identifier == "picam3.focus.trigger" {
        commandQueue := commandQueue + [TriggerAutofocusCmd];
      }
    }

    /** `control_camera()`: one camera action per queued command, in queue
        order, then the queue is cleared. */
    method ControlCamera()
      modifies this
      ensures camera == old(camera) + Applied(old(commandQueue))
      ensures commandQueue == []
      ensures published == old(published)
    {
      var i := 0;
      while i < |commandQueue|
        invariant 0 <= i <= |commandQueue|
        invariant commandQueue == old(commandQueue) && published == old(published)
        invariant camera == old(camera) + Applied(commandQueue[..i])
      {
        var cmd := commandQueue[i];
        if Tag(cmd) == AUTOFOCUS_MODE {
          camera := camera + [SetAfMode(cmd.afMode)];
        } else if Tag(cmd) == MANUAL_FOCUS {
          camera := camera + [SetLensPosition(cmd.position)];
        } else if Tag(cmd) == TRIGGER_AUTOFOCUS {
          camera := camera + [AutofocusCycle];
        }
        AppliedConcat(commandQueue[..i], [cmd]);
        assert commandQueue[..i + 1] == commandQueue[..i] + [cmd];
        i := i + 1;
      }
      assert commandQueue[..i] == commandQueue;
      commandQueue := [];
    }

    /** `process_frame(metadata, frame)`, given the frame's `AfState` code and
        `LensPosition`: publish the protocol state and the position; ValueError,
        with nothing published, for a code libcamera does not define. */
    method ProcessFrame(afStateCode: int, lensPosition: real, frame: Bytes) returns (status: Outcome)
      modifies this
      ensures 0 <= afStateCode <= 3 ==>
        status == Ok
        && published == old(published) + [FrameMsg(AfStatesInverse(AfStateOf(afStateCode).value), lensPosition, frame)]
      ensures !(0 <= afStateCode <= 3) ==> status == Failed(ValueError) && published == old(published)
      ensures commandQueue == old(commandQueue) && camera == old(camera)
    {
      var state := AfStateOf(afStateCode);
      if state.Failure? {
        return Failed(state.fault);
      }
      published := published + [FrameMsg(AfStatesInverse(state.value), lensPosition, frame)];
      status := Ok;
    }
  }

  /** The commands one message puts on the queue: one for a listed mode, a
      lens position or a trigger, none for an unlisted mode or another
      identifier. */
  function Queued(identifier: string, mode: ModeValue, position: real): (r: seq<Command>)
    ensures |r| <= 1
    ensures r == [] <==> (identifier == "picam3.mode.set" && mode.Unlisted?)
                         || identifier !in {"picam3.mode.set", "picam3.position.set", "picam3.focus.trigger"}
  {
    if identifier == "picam3.mode.set" then
      (if mode.Listed? then [AutofocusModeCmd(Modes(mode.mode))] else [])
    else if identifier == "picam3.position.set" then [ManualFocusCmd(position)]
    else if identifier == "picam3.focus.trigger" then [TriggerAutofocusCmd]
    else []
  }

  /** The drain and the enqueues are serialised by one lock: whatever message
      arrives after a drain is not applied by it, stays queued, and is applied
      by the next drain, after nothing else; the message fails only for an
      unlisted mode. */
  method QueuedAfterDrain(cam: CameraPicam3, identifier: string, mode: ModeValue, position: real) returns (status: Outcome)
    modifies cam
    ensures cam.camera == old(cam.camera) + Applied(old(cam.commandQueue)) + Applied(Queued(identifier, mode, position))
    ensures cam.commandQueue == []
    ensures status == Ok <==> !(identifier == "picam3.mode.set" && mode.Unlisted?)
  {
    cam.ControlCamera();
    ghost var drained := cam.camera;
    status := cam.HandleMessage(identifier, mode, position);
    assert cam.camera == drained && cam.commandQueue == Queued(identifier, mode, position);
    cam.ControlCamera();
  }
}
