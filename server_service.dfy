/**
  * The non-HTTP logic of `ServerService` (app/services/server_service.py):
  * the frame-rate-derived bounds check of `update_threshold`, which stores
  * the new threshold in the state-pattern manager, and `get_frame`.
  *
  * `frame_rate` is the camera's optional configured rate; Python's truth
  * test on it is `Truthy`. An HTTP exception becomes a `Rejected` response;
  * routing, templates and the multipart stream are not part of this model.
  */
module ServerService {
  import opened Wrappers
  import opened Frames
  import opened FrameBuffers
  import opened Cameras
  import StateClasses
  import Signals
  import opened StatePatternService

  /** The outcome of `update_threshold`: a redirect to the index page, or an HTTP error. */
  datatype Response = Redirect(url: string, status: nat) | Rejected(status: nat)

  /** Python's truth value of the configured frame rate: present and non-zero. */
  predicate Truthy(frameRate: Option<int>)
  {
    frameRate.Some? && frameRate.value != 0
  }

  /** `min_threshold`: one second of frames, or 5 without a frame rate. */
  function MinThreshold(frameRate: Option<int>): (r: int)
  {
    if Truthy(frameRate) then frameRate.value * 1 else 5
  }

  /** `max_threshold`: twenty seconds of frames, or 100 without a frame rate. */
  function MaxThreshold(frameRate: Option<int>): (r: int)
  {
    if Truthy(frameRate) then frameRate.value * 20 else 100
  }

  /**
    * Whether `update_threshold` stores `threshold`: it lies in the inclusive
    * range `[min_threshold, max_threshold]`.
    */
  function Accepts(frameRate: Option<int>, threshold: int): (r: bool)
    // with a positive frame rate: between one and twenty seconds of frames
    ensures Truthy(frameRate) && frameRate.value > 0 ==>
              (r <==> frameRate.value <= threshold <= 20 * frameRate.value)
    // without a usable frame rate: between 5 and 100 frames
    ensures !Truthy(frameRate) ==> (r <==> 5 <= threshold <= 100)
    // a negative frame rate gives an empty range
    ensures Truthy(frameRate) && frameRate.value < 0 ==> !r
    // so every stored threshold is at least one frame
    ensures r ==> threshold >= 1
  {
    MinThreshold(frameRate) <= threshold <= MaxThreshold(frameRate)
  }

  /**
    * `update_threshold` replaces only the threshold: the manager keeps the
    * state and counter it reached under the old one. From a machine that is
    * reachable for `oldThreshold`, every later run under an accepted
    * `newThreshold` keeps the counter within the larger of the two.
    */
  lemma AcceptedThresholdKeepsCounterBounded(frameRate: Option<int>, oldThreshold: int, newThreshold: int,
                                             m: StateClasses.Machine, signals: seq<Signals.Signal>)
    requires StateClasses.Reachable(m, oldThreshold)
    requires Accepts(frameRate, newThreshold)
    ensures StateClasses.Run(m, signals, newThreshold).final.noFaceCount
            <= if oldThreshold >= newThreshold then oldThreshold else newThreshold
  {
    var cap := if oldThreshold >= newThreshold then oldThreshold else newThreshold;
    assert StateClasses.WithinCap(m, cap);
    StateClasses.RunStaysWithinCap(m, signals, newThreshold, cap);
  }

  /**
    * The larger of the two bounds is needed: lowering the threshold from 100
    * to 30 (accepted at 30 frames per second) while the counter stands at 50
    * moves the manager into the alert on the next no-face frame with a
    * counter of 51, past the new threshold.
    */
  lemma LoweredThresholdIsExceeded()
    ensures StateClasses.Reachable(StateClasses.Machine(StateClasses.PersonDetected, 50), 100)
    ensures Accepts(Some(30), 30)
    ensures StateClasses.Run(StateClasses.Machine(StateClasses.PersonDetected, 50),
                             [Signals.Signal(true, false)], 30)
            == StateClasses.Outcome(StateClasses.Machine(StateClasses.NoFaceDetected, 51), 1)
  {
  }

  class ServerService {
    const camera: Camera
    const stateManager: StateManagerService
    const frameRate: Option<int>
    var running: bool

    /** The state part of `ServerService(config, camera_service, state_manager, detector_service)`. */
    constructor (camera: Camera, stateManager: StateManagerService)
      ensures this.camera == camera && this.stateManager == stateManager
      ensures frameRate == camera.frameRate && running
    {
      this.camera := camera;
      this.stateManager := stateManager;
      frameRate := camera.frameRate;
      running := true;
    }

    /**
      * `update_threshold(threshold)`: a threshold inside the range is stored
      * and answered with a 303 redirect to `/`; one outside it is answered
      * with status 400 and changes nothing.
      */
    method UpdateThreshold(threshold: int) returns (response: Response)
      modifies stateManager`maxNoFaceCount
      ensures Accepts(frameRate, threshold) ==>
                response == Redirect("/", 303) && stateManager.maxNoFaceCount == threshold
      ensures !Accepts(frameRate, threshold) ==>
                response == Rejected(400) && stateManager.maxNoFaceCount == old(stateManager.maxNoFaceCount)
    {
      var minThreshold := if Truthy(frameRate) then frameRate.value * 1 else 5;
      var maxThreshold := if Truthy(frameRate) then frameRate.value * 20 else 100;
      if threshold < minThreshold || threshold > maxThreshold {
        return Rejected(400);
      }
      stateManager.maxNoFaceCount := threshold;
      response := Redirect("/", 303);
    }

    /** `get_frame(source)`: the oldest frame of the source's deque, or `None` when it is empty. */
    method GetFrame(source: Camera) returns (f: Option<Frame>)
      requires source.Valid()
      modifies source.frameBuffer
      ensures source.Valid()
      ensures (f, source.frameBuffer.items) == PopOldestOf(old(source.frameBuffer.items))
    {
      f := source.frameBuffer.PopOldest();
    }
  }
}
