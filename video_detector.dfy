/**
  * `VideoDetector` (app/video_detector.py): one `update_frame` of a capture,
  * person and face detection, a call into the enum state manager and an
  * append of the encoded frame to the camera's deque.
  *
  * The camera read, the two detectors and the JPEG encoder are parameters;
  * drawing boxes and FPS text changes no modelled state.
  */
module VideoDetector {
  import opened Wrappers
  import opened Frames
  import opened FrameBuffers
  import opened Cameras
  import EnumStateManager
  import Signals

  /**
    * The state-manager call `update_frame` makes for the detections of one
    * frame: none when no person was found (the face detector is then never
    * consulted), otherwise `transition_state(True, face boxes non-empty)`.
    */
  function DetectionSignal(persons: seq<Box>, faces: seq<Box>): (r: Option<Signals.Signal>)
    ensures r.None? <==> persons == []
    ensures r.Some? ==> r.value.person && (r.value.face <==> faces != [])
  {
    if persons != [] then Some(Signals.Signal(true, faces != [])) else None
  }

  class VideoDetector {
    const camera: Camera
    const stateManager: EnumStateManager.StateManager
    var running: bool
    var frameCount: nat

    ghost predicate Valid()
      reads this, camera, camera.frameBuffer
    {
      camera.Valid()
    }

    constructor (camera: Camera, stateManager: EnumStateManager.StateManager)
      requires camera.Valid()
      ensures Valid() && this.camera == camera && this.stateManager == stateManager
      ensures running && frameCount == 0
    {
      this.camera := camera;
      this.stateManager := stateManager;
      running := true;
      frameCount := 0;
    }

    /**
      * `update_frame()`. Returns the signal passed to `transition_state`, or
      * `None` when it was not called.
      */
    method UpdateFrame(captured: Option<Frame>, detectPersons: Frame -> seq<Box>,
                       detectFaces: Frame -> seq<Box>, encode: Frame -> Option<seq<Byte>>)
      returns (signal: Option<Signals.Signal>)
      requires Valid()
      modifies this, stateManager, camera.frameBuffer
      ensures Valid() && running == old(running)
      // a failed read: no state-manager call, nothing counted, nothing appended
      ensures captured.None? ==> signal.None? && frameCount == old(frameCount)
                                 && camera.frameBuffer.items == old(camera.frameBuffer.items)
      ensures captured.Some? ==>
                signal == DetectionSignal(detectPersons(captured.value), detectFaces(captured.value))
                && frameCount == old(frameCount) + 1
      // the state manager sees exactly the signal
      ensures signal.None? ==> stateManager.Current() == old(stateManager.Current())
                               && stateManager.notifications == old(stateManager.notifications)
      ensures signal.Some? ==>
                var step := EnumStateManager.Transition(old(stateManager.Current()), signal.value.person,
                                                         signal.value.face, stateManager.maxNoFaceCount);
                stateManager.Current() == step.next
                && stateManager.notifications
                   == old(stateManager.notifications) + if step.notify then [stateManager.message] else []
      ensures stateManager.maxNoFaceCount == old(stateManager.maxNoFaceCount)
      // the encoded frame is appended only while running and only if encoding succeeded
      ensures captured.Some? && running && encode(captured.value).Some? ==>
                camera.frameBuffer.items
                == Appended(old(camera.frameBuffer.items), Jpeg(encode(captured.value).value), Some(camera.bufferSize))
      ensures !(captured.Some? && running && encode(captured.value).Some?) ==>
                camera.frameBuffer.items == old(camera.frameBuffer.items)
    {
      signal := None;
      if captured.None? {
        return;
      }
      var frame := captured.value;
      signal := Detect(frame, detectPersons, detectFaces);
      frameCount := frameCount + 1;
      AppendEncoded(frame, encode);
    }

    /** The detection part of `update_frame`: person detection, then face detection and the state-manager call. */
    method Detect(frame: Frame, detectPersons: Frame -> seq<Box>, detectFaces: Frame -> seq<Box>)
      returns (signal: Option<Signals.Signal>)
      modifies stateManager
      ensures signal == DetectionSignal(detectPersons(frame), detectFaces(frame))
      ensures signal.None? ==> stateManager.Current() == old(stateManager.Current())
                               && stateManager.notifications == old(stateManager.notifications)
      ensures signal.Some? ==>
                var step := EnumStateManager.Transition(old(stateManager.Current()), signal.value.person,
                                                         signal.value.face, stateManager.maxNoFaceCount);
                stateManager.Current() == step.next
                && stateManager.notifications
                   == old(stateManager.notifications) + if step.notify then [stateManager.message] else []
      ensures stateManager.maxNoFaceCount == old(stateManager.maxNoFaceCount)
    {
      signal := None;
      var persons := detectPersons(frame);
      if persons != [] {
        var faces := detectFaces(frame);
        if faces != [] {
          stateManager.TransitionState(true, true);
          signal := Some(Signals.Signal(true, true));
        } else {
          stateManager.TransitionState(true, false);
          signal := Some(Signals.Signal(true, false));
        }
      }
    }

    /** The guarded append of `update_frame`: only while running, and only if encoding succeeded. */
    method AppendEncoded(frame: Frame, encode: Frame -> Option<seq<Byte>>)
      requires Valid()
      modifies camera.frameBuffer
      ensures Valid()
      ensures running && encode(frame).Some? ==>
                camera.frameBuffer.items
                == Appended(old(camera.frameBuffer.items), Jpeg(encode(frame).value), Some(camera.bufferSize))
      ensures !(running && encode(frame).Some?) ==> camera.frameBuffer.items == old(camera.frameBuffer.items)
    {
      if running {
        var encoded := encode(frame);
        if encoded.Some? {
          camera.frameBuffer.Push(Jpeg(encoded.value));
        }
      }
    }

    /** `get_frame()`: the oldest frame of the camera deque, or `None` when it is empty. */
    method GetFrame() returns (f: Option<Frame>)
      requires Valid()
      modifies camera.frameBuffer
      ensures Valid()
      ensures (f, camera.frameBuffer.items) == PopOldestOf(old(camera.frameBuffer.items))
    {
      f := camera.frameBuffer.PopOldest();
    }

    /** `release_resources()`: clears `running`, so no later `update_frame` appends. */
    method ReleaseResources()
      modifies this`running
      ensures !running
    {
      running := false;
    }
  }
}
