/**
  * The legacy two-state machine of `app/detection_state.py`: a face resets
  * the counter, a missing face counts one frame, and the state becomes
  * FaceNotDetected once the counter reaches the threshold. It sends no
  * notification.
  */
module LegacyDetectionState {
  import opened Wrappers

  datatype DetectionState = FaceDetected | FaceNotDetected

  datatype Snapshot = Snapshot(state: DetectionState, noFaceCount: nat)

  const DefaultThreshold: int := 100

  /**
    * With a fixed threshold of at least one frame, the state is
    * FaceNotDetected exactly when the counter has reached the threshold.
    */
  ghost predicate Consistent(m: Snapshot, threshold: int)
  {
    m.state == FaceNotDetected <==> m.noFaceCount >= threshold
  }

  /** `transition_state(face_detected)` as a function of the old snapshot. */
  function Transition(m: Snapshot, face: bool, threshold: int): (r: Snapshot)
    ensures face ==> r == Snapshot(FaceDetected, 0)
    ensures !face ==> r.noFaceCount == m.noFaceCount + 1
    // below the threshold a missing face leaves the state as it was
    ensures !face && r.noFaceCount < threshold ==> r.state == m.state
    ensures !face && r.noFaceCount >= threshold ==> r.state == FaceNotDetected
    ensures threshold >= 1 && Consistent(m, threshold) ==> Consistent(r, threshold)
  {
    if face then Snapshot(FaceDetected, 0)
    else
      var count := m.noFaceCount + 1;
      if count >= threshold then Snapshot(FaceNotDetected, count) else Snapshot(m.state, count)
  }

  /** Feeding a sequence of face flags, one `transition_state` call each. */
  function Run(m: Snapshot, faces: seq<bool>, threshold: int): (r: Snapshot)
    decreases |faces|
  {
    if faces == [] then m else Run(Transition(m, faces[0], threshold), faces[1..], threshold)
  }

  /** Over any input sequence, FaceNotDetected holds exactly when the counter is at or over the threshold. */
  lemma {:induction false} RunStaysConsistent(m: Snapshot, faces: seq<bool>, threshold: int)
    requires threshold >= 1 && Consistent(m, threshold)
    ensures Consistent(Run(m, faces, threshold), threshold)
    decreases |faces|
  {
    if faces != [] {
      RunStaysConsistent(Transition(m, faces[0], threshold), faces[1..], threshold);
    }
  }

  /**
    * The counter counts the frames since the last face: after a run it is the
    * length of the run's face-free tail, plus the initial count if the run
    * had no face at all.
    */
  lemma {:induction false} CounterCountsTrailingMisses(m: Snapshot, faces: seq<bool>, threshold: int, k: nat)
    requires k <= |faces|
    requires forall i :: |faces| - k <= i < |faces| ==> !faces[i]
    requires k < |faces| ==> faces[|faces| - k - 1]
    ensures Run(m, faces, threshold).noFaceCount == if k == |faces| then m.noFaceCount + k else k
    decreases |faces|
  {
    if faces != [] {
      var next := Transition(m, faces[0], threshold);
      if k == |faces| {
        CounterCountsTrailingMisses(next, faces[1..], threshold, k - 1);
      } else {
        CounterCountsTrailingMisses(next, faces[1..], threshold, k);
      }
    }
  }

  class StateManager {
    var state: DetectionState
    var noFaceCount: nat
    var maxNoFaceCount: int

    function Current(): Snapshot
      reads this
    {
      Snapshot(state, noFaceCount)
    }

    /** `StateManager(max_no_face_count=100)`. */
    constructor (thresholdSetting: Option<int>)
      ensures state == FaceDetected && noFaceCount == 0
      ensures maxNoFaceCount == if thresholdSetting.Some? then thresholdSetting.value else DefaultThreshold
    {
      state := FaceDetected;
      noFaceCount := 0;
      maxNoFaceCount := if thresholdSetting.Some? then thresholdSetting.value else DefaultThreshold;
    }

    /** `transition_state(face_detected)`. */
    method TransitionState(face: bool)
      modifies this
      ensures Current() == Transition(old(Current()), face, maxNoFaceCount)
      ensures maxNoFaceCount == old(maxNoFaceCount)
    {
      if face {
        noFaceCount := 0;
        if state != FaceDetected {
          state := FaceDetected;
        }
      } else {
        noFaceCount := noFaceCount + 1;
        if noFaceCount >= maxNoFaceCount {
          if state != FaceNotDetected {
            state := FaceNotDetected;
          }
        }
      }
    }

    /** `get_state()`: reads the state and changes nothing. */
    method GetState() returns (s: DetectionState)
      ensures s == state
    {
      s := state;
    }
  }
}
