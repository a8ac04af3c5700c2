/**
  * `DetectorService` (app/services/detector_service.py): one iteration of the
  * `_process_frame` loop after the wait for a new frame. It takes the oldest
  * frame of the camera deque, skips a missing or empty frame, runs face
  * detection, signals the state-pattern manager, annotates the frame with
  * the resulting state and appends it to its own unbounded deque.
  *
  * The face detector is the `detectFaces` parameter; drawing boxes and text
  * changes no modelled state. The condition variable, the locks and the
  * thread are not part of this model.
  */
module DetectorService {
  import opened Wrappers
  import opened Frames
  import opened FrameBuffers
  import opened Cameras
  import opened StateClasses
  import opened StatePatternService
  import opened Signals

  /** Whether a popped frame is skipped: nothing was popped, or the frame holds no data. */
  predicate Skipped(frame: Option<Frame>)
  {
    frame.None? || frame.value.Size() == 0
  }

  /**
    * The signal passed to `process_frame` for a frame with the given face
    * boxes: person detection is disabled, so a person is always assumed.
    */
  function FaceSignal(faces: seq<Box>): (r: Signal)
    ensures r.person
    ensures r.face <==> faces != []
  {
    Signal(true, faces != [])
  }

  class DetectorService {
    const camera: Camera
    const stateManager: StateManagerService
    const frameBuffer: FrameDeque<Frame>
    var running: bool

    ghost predicate Valid()
      reads this, camera, camera.frameBuffer, frameBuffer
    {
      camera.Valid() && frameBuffer.maxlen.None? && frameBuffer.Valid() && frameBuffer != camera.frameBuffer
    }

    /** The buffer part of `DetectorService(camera_service, detection_service, state_manager)`. */
    constructor (camera: Camera, stateManager: StateManagerService)
      requires camera.Valid()
      ensures Valid() && fresh(frameBuffer) && frameBuffer.items == []
      ensures this.camera == camera && this.stateManager == stateManager && running
    {
      this.camera := camera;
      this.stateManager := stateManager;
      frameBuffer := new FrameDeque(None);
      running := true;
    }

    /**
      * One loop iteration of `_process_frame`. Returns the frame taken from
      * the camera deque, the signal passed to `process_frame` (`None` when
      * the frame was skipped) and the annotation text and colour drawn.
      */
    method ProcessFrameOnce(detectFaces: Frame -> seq<Box>)
      returns (frame: Option<Frame>, signal: Option<Signal>, drawn: Option<(string, Color)>)
      requires Valid()
      modifies stateManager, camera.frameBuffer, frameBuffer
      ensures Valid()
      // the input is the oldest frame of the camera deque, or None when it is empty
      ensures (frame, camera.frameBuffer.items) == PopOldestOf(old(camera.frameBuffer.items))
      // a skipped frame: no state-manager call, nothing drawn, nothing appended
      ensures Skipped(frame) ==> signal.None? && drawn.None?
                                 && stateManager.Current() == old(stateManager.Current())
                                 && stateManager.notifications == old(stateManager.notifications)
                                 && frameBuffer.items == old(frameBuffer.items)
      ensures !Skipped(frame) ==>
                signal == Some(FaceSignal(detectFaces(frame.value)))
                && stateManager.Current()
                   == Next(old(stateManager.Current()), signal.value.person, signal.value.face,
                           stateManager.maxNoFaceCount).next
                && stateManager.notifications
                   == old(stateManager.notifications)
                      + if Next(old(stateManager.Current()), signal.value.person, signal.value.face,
                                stateManager.maxNoFaceCount).notify
                        then [stateManager.message] else []
      // the annotation reflects the state after the call
      ensures !Skipped(frame) ==> drawn == Some((Annotation(stateManager.state), TextColor(stateManager.state)))
      // each processed frame is appended once, at the right end
      ensures !Skipped(frame) ==> frameBuffer.items == old(frameBuffer.items) + [frame.value]
      ensures stateManager.maxNoFaceCount == old(stateManager.maxNoFaceCount)
              && stateManager.message == old(stateManager.message)
    {
      signal, drawn := None, None;
      frame := camera.frameBuffer.PopOldest();
      if frame.None? || frame.value.Size() == 0 {
        return;
      }
      var s, d := Detect(frame.value, detectFaces);
      signal, drawn := Some(s), Some(d);
      frameBuffer.Push(frame.value);
    }

    /**
      * The detection part of the loop body for a frame that is not skipped:
      * face detection, the state-manager call and the annotation of the
      * resulting state.
      */
    method Detect(frame: Frame, detectFaces: Frame -> seq<Box>) returns (signal: Signal, drawn: (string, Color))
      modifies stateManager
      ensures signal == FaceSignal(detectFaces(frame))
      ensures stateManager.Current()
              == Next(old(stateManager.Current()), signal.person, signal.face, stateManager.maxNoFaceCount).next
      ensures stateManager.notifications
              == old(stateManager.notifications)
                 + if Next(old(stateManager.Current()), signal.person, signal.face, stateManager.maxNoFaceCount).notify
                   then [stateManager.message] else []
      ensures drawn == (Annotation(stateManager.state), TextColor(stateManager.state))
      ensures stateManager.maxNoFaceCount == old(stateManager.maxNoFaceCount)
              && stateManager.message == old(stateManager.message)
    {
      var faces := detectFaces(frame);
      if faces != [] {
        stateManager.ProcessFrame(true, true);
        signal := Signal(true, true);
      } else {
        stateManager.ProcessFrame(true, false);
        signal := Signal(true, false);
      }
      drawn := (Annotation(stateManager.state), TextColor(stateManager.state));
    }

    /** `release_resources()`: clears `running`, which ends the loop. */
    method ReleaseResources()
      modifies this`running
      ensures !running
    {
      running := false;
    }
  }
}
