/**
  * The buffer handling of `VideoFaceDetector` (app/video_face_detector.py).
  *
  * The camera read is the `captured` parameter and the JPEG encoder the
  * `encode` parameter. Face detection there only feeds the drawing of boxes
  * (its state-manager call is commented out), so it changes no modelled
  * state; resizing, colour conversion, box rescaling and the FPS value are
  * not part of this model.
  */
module VideoFaceDetector {
  import opened Wrappers
  import opened Frames
  import opened FrameBuffers

  class VideoFaceDetector {
    const bufferSize: Option<nat>
    const frameBuffer: FrameDeque<Frame>
    var running: bool
    var frameCount: nat
    const detectionInterval: nat := 100
    var detectionCounter: nat

    ghost predicate Valid()
      reads this, frameBuffer
    {
      frameBuffer.maxlen == bufferSize && frameBuffer.Valid() && detectionCounter < detectionInterval
    }

    /** The buffer and counter part of `VideoFaceDetector(video_config, state_manager)`. */
    constructor (bufferSize: Option<nat>)
      ensures Valid() && fresh(frameBuffer) && this.bufferSize == bufferSize
      ensures frameBuffer.items == [] && running
      ensures frameCount == 0 && detectionCounter == 0
    {
      this.bufferSize := bufferSize;
      frameBuffer := new FrameDeque(bufferSize);
      running := true;
      frameCount := 0;
      detectionCounter := 0;
    }

    /**
      * `update_frame()`: a failed read returns before anything changes;
      * otherwise the frame is counted, its encoding is appended only while
      * `running` and only if encoding succeeded, and the detection counter
      * advances modulo `detection_interval`.
      */
    method UpdateFrame(captured: Option<Frame>, encode: Frame -> Option<seq<Byte>>)
      requires Valid()
      modifies this, frameBuffer
      ensures Valid() && running == old(running)
      ensures captured.None? ==> frameCount == old(frameCount)
                                 && detectionCounter == old(detectionCounter)
                                 && frameBuffer.items == old(frameBuffer.items)
      ensures captured.Some? ==> frameCount == old(frameCount) + 1
      ensures captured.Some? ==> detectionCounter == (old(detectionCounter) + 1) % detectionInterval
      ensures captured.Some? && running && encode(captured.value).Some? ==>
                frameBuffer.items == Appended(old(frameBuffer.items), Jpeg(encode(captured.value).value), bufferSize)
      ensures !(captured.Some? && running && encode(captured.value).Some?) ==>
                frameBuffer.items == old(frameBuffer.items)
    {
      if captured.None? {
        return;
      }
      var frame := captured.value;
      frameCount := frameCount + 1;
      if running {
        var encoded := encode(frame);
        if encoded.Some? {
          frameBuffer.Push(Jpeg(encoded.value));
        }
      }
      detectionCounter := (detectionCounter + 1) % detectionInterval;
    }

    /** `get_frame()`: the oldest encoded frame, or `None` when the buffer is empty. */
    method GetFrame() returns (f: Option<Frame>)
      requires Valid()
      modifies frameBuffer
      ensures Valid()
      ensures (f, frameBuffer.items) == PopOldestOf(old(frameBuffer.items))
    {
      f := frameBuffer.PopOldest();
    }

    /** `release_resources()`: clears `running`, so no later `update_frame` appends. */
    method ReleaseResources()
      modifies this`running
      ensures !running
    {
      running := false;
    }
  }
}
