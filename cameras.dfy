/**
  * The part of a camera service the pipeline touches: its configured buffer
  * size and frame rate and its frame deque (`deque(maxlen=buffer_size)`).
  * Opening, reading and releasing the device are not part of this model.
  */
module Cameras {
  import opened Wrappers
  import opened Frames
  import opened FrameBuffers

  class Camera {
    const bufferSize: nat
    const frameRate: Option<int>
    const frameBuffer: FrameDeque<Frame>

    ghost predicate Valid()
      reads this, frameBuffer
    {
      frameBuffer.maxlen == Some(bufferSize) && frameBuffer.Valid()
    }

    /** The buffer-related part of `OpenCVCameraService(video_config)`. */
    constructor (bufferSize: nat, frameRate: Option<int>)
      ensures Valid() && fresh(frameBuffer)
      ensures this.bufferSize == bufferSize && this.frameRate == frameRate
      ensures frameBuffer.items == []
    {
      this.bufferSize := bufferSize;
      this.frameRate := frameRate;
      frameBuffer := new FrameDeque(Some(bufferSize));
    }
  }
}
