/**
  * The enum-based debounce state machine of `app/state_manager.py`.
  *
  * A person seen without a face for `max_no_face_count` frames raises the
  * "no face" alert, which sends one notification on entry. In this variant the
  * counter is never capped: it keeps rising while the alert state persists.
  */
module EnumStateManager {
  import opened Wrappers
  import opened Signals

  datatype DetectionState = Idle | PersonDetected | FaceDetected | NoFaceDetected

  /** The state and counter that `transition_state` updates. */
  datatype Snapshot = Snapshot(state: DetectionState, noFaceCount: int)

  /** The effect of one frame: the new snapshot and whether a notification was sent. */
  datatype Step = Step(next: Snapshot, notify: bool)

  /** The outcome of a run of frames: the final snapshot and the number of notifications sent. */
  datatype Outcome = Outcome(final: Snapshot, notifications: nat)

  /**
    * The states reachable from a new manager with a fixed threshold of at
    * least one frame: only the alert state and a person without a face carry
    * a non-zero counter, and the counter says which of the two applies.
    */
  ghost predicate Reachable(m: Snapshot, threshold: int)
  {
    match m.state
    case Idle => m.noFaceCount == 0
    case FaceDetected => m.noFaceCount == 0
    case PersonDetected => 1 <= m.noFaceCount < threshold
    case NoFaceDetected => m.noFaceCount >= threshold
  }

  /** `transition_state(person_detected, face_detected)` as a function of the old snapshot. */
  function Transition(m: Snapshot, person: bool, face: bool, threshold: int): (r: Step)
    // a notification is sent exactly when the alert state is entered
    ensures r.notify <==> m.state != NoFaceDetected && r.next.state == NoFaceDetected
    // a face with a person: FaceDetected, the counter reset unless it was FaceDetected already
    ensures person && face ==> r.next.state == FaceDetected
    ensures person && face && m.state != FaceDetected ==> r.next.noFaceCount == 0
    ensures person && face && m.state == FaceDetected ==> r.next == m
    // a person without a face: one more frame counted, uncapped, in every state
    ensures person && !face ==> r.next.noFaceCount == m.noFaceCount + 1
    ensures person && !face ==> (r.next.state == NoFaceDetected <==> m.noFaceCount + 1 >= threshold)
    ensures person && !face ==> (r.next.state == PersonDetected <==> m.noFaceCount + 1 < threshold)
    // no person: Idle, the counter reset unless it was Idle already
    ensures !person ==> r.next.state == Idle && !r.notify
    ensures !person && m.state != Idle ==> r.next.noFaceCount == 0
    ensures !person && m.state == Idle ==> r.next == m
    // with a fixed threshold of at least one frame the reachable states are closed under a step
    ensures threshold >= 1 && Reachable(m, threshold) ==> Reachable(r.next, threshold)
  {
    if person then
      if face then
        if m.state != FaceDetected then Step(Snapshot(FaceDetected, 0), false) else Step(m, false)
      else
        var count := m.noFaceCount + 1;
        if count >= threshold then
          if m.state != NoFaceDetected then Step(Snapshot(NoFaceDetected, count), true)
          else Step(Snapshot(m.state, count), false)
        else
          Step(Snapshot(PersonDetected, count), false)
    else
      if m.state != Idle then Step(Snapshot(Idle, 0), false) else Step(m, false)
  }

  /** Feeding a sequence of signals, one `transition_state` call each. */
  function Run(m: Snapshot, signals: seq<Signal>, threshold: int): (r: Outcome)
    decreases |signals|
  {
    if signals == [] then Outcome(m, 0)
    else
      var step := Transition(m, signals[0].person, signals[0].face, threshold);
      var rest := Run(step.next, signals[1..], threshold);
      Outcome(rest.final, rest.notifications + if step.notify then 1 else 0)
  }

  /** With no person in the frame the face flag is never looked at. */
  lemma FaceIgnoredWithoutPerson(m: Snapshot, threshold: int)
    ensures Transition(m, false, true, threshold) == Transition(m, false, false, threshold)
  {
  }

  /**
    * Over any sequence of frames and a fixed threshold of at least one frame,
    * Idle and FaceDetected carry a zero counter, PersonDetected a counter in
    * `[1, threshold)` and NoFaceDetected a counter of at least `threshold`.
    */
  lemma {:induction false} RunStaysReachable(m: Snapshot, signals: seq<Signal>, threshold: int)
    requires threshold >= 1 && Reachable(m, threshold)
    ensures Reachable(Run(m, signals, threshold).final, threshold)
    decreases |signals|
  {
    if signals != [] {
      var step := Transition(m, signals[0].person, signals[0].face, threshold);
      RunStaysReachable(step.next, signals[1..], threshold);
    }
  }

  /**
    * A run of `n` no-face frames from a reachable snapshot: the counter rises
    * by exactly `n` (also past the threshold), the alert is raised once the
    * counter reaches the threshold and at most one notification is sent, none
    * if the run started in the alert state.
    */
  lemma {:induction false} NoFaceRunNotifiesOnce(m: Snapshot, n: nat, threshold: int)
    requires threshold >= 1 && Reachable(m, threshold)
    ensures Run(m, NoFaceFrames(n), threshold).final.noFaceCount == m.noFaceCount + n
    ensures n > 0 ==> (Run(m, NoFaceFrames(n), threshold).final.state == NoFaceDetected
                       <==> m.noFaceCount + n >= threshold)
    ensures Run(m, NoFaceFrames(n), threshold).notifications
            == if m.state != NoFaceDetected && m.noFaceCount + n >= threshold then 1 else 0
    decreases n
  {
    if n > 0 {
      var step := Transition(m, true, false, threshold);
      assert NoFaceFrames(n)[1..] == NoFaceFrames(n - 1);
      NoFaceRunNotifiesOnce(step.next, n - 1, threshold);
    }
  }

  /**
    * The manager object. `send_notification` is recorded in the ghost log
    * `notifications`; the Pushover service itself is not part of this model.
    */
  class StateManager {
    var state: DetectionState
    var noFaceCount: int
    var maxNoFaceCount: int
    const message: string
    ghost var notifications: seq<string>

    function Current(): Snapshot
      reads this
    {
      Snapshot(state, noFaceCount)
    }

    /**
      * `StateManager(config, pushover_service)`: `threshold` is the value of
      * `config['threshold']['detection_threshold']`, `messageSetting` the
      * optional `config['pushover']['MESSAGE']`.
      */
    constructor (threshold: int, messageSetting: Option<string>)
      ensures state == Idle && noFaceCount == 0
      ensures maxNoFaceCount == threshold
      ensures message == (if messageSetting.Some? then messageSetting.value else DefaultMessage)
      ensures notifications == []
    {
      state := Idle;
      noFaceCount := 0;
      maxNoFaceCount := threshold;
      message := if messageSetting.Some? then messageSetting.value else DefaultMessage;
      notifications := [];
    }

    /** `transition_state(person_detected, face_detected)`. */
    method TransitionState(person: bool, face: bool)
      modifies this
      ensures Current() == Transition(old(Current()), person, face, maxNoFaceCount).next
      ensures notifications == old(notifications)
              + if Transition(old(Current()), person, face, maxNoFaceCount).notify then [message] else []
      ensures maxNoFaceCount == old(maxNoFaceCount)
    {
      if person {
        if face {
          if state != FaceDetected {
            state := FaceDetected;
            noFaceCount := 0;
          }
        } else {
          noFaceCount := noFaceCount + 1;
          if noFaceCount >= maxNoFaceCount {
            if state != NoFaceDetected {
              state := NoFaceDetected;
              notifications := notifications + [message];
            }
          } else {
            if state != PersonDetected {
              state := PersonDetected;
            }
          }
        }
      } else {
        if state != Idle {
          state := Idle;
          noFaceCount := 0;
        }
      }
    }

    /** `process_frame(person_detected, face_detected)`: the same effect as `transition_state`. */
    method ProcessFrame(person: bool, face: bool)
      modifies this
      ensures Current() == Transition(old(Current()), person, face, maxNoFaceCount).next
      ensures notifications == old(notifications)
              + if Transition(old(Current()), person, face, maxNoFaceCount).notify then [message] else []
      ensures maxNoFaceCount == old(maxNoFaceCount)
    {
      if person {
        if face {
          TransitionState(true, true);
        } else {
          TransitionState(true, false);
        }
      } else {
        FaceIgnoredWithoutPerson(Current(), maxNoFaceCount);
        TransitionState(false, false);
      }
    }

    /** `get_state()`: reads the state and changes nothing. */
    method GetState() returns (s: DetectionState)
      ensures s == state
    {
      s := state;
    }
  }
}
