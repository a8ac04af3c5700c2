/**
  * `StateManagerService` (app/services/state_manager_service.py) and the
  * `process_frame` methods of the state classes that mutate it
  * (app/states/state_classes.py).
  *
  * The state objects' back-reference to the manager becomes a parameter `sm`
  * of one method per state class; each changes the manager only through its
  * counter, `set_state` and the notification log.
  */
module StatePatternService {
  import opened Wrappers
  import opened StateClasses
  import opened Signals

  const DefaultThreshold: int := 100

  class StateManagerService {
    var state: State
    var noFaceCount: nat
    var maxNoFaceCount: int
    var message: string
    /** Every `send_notification(message)` call, in order. */
    ghost var notifications: seq<string>

    function Current(): Machine
      reads this
    {
      Machine(state, noFaceCount)
    }

    /**
      * `StateManagerService(config, pushover_service)`; the two settings are
      * the optional `config['threshold']['detection_threshold']` and
      * `config['pushover']['MESSAGE']`.
      */
    constructor (thresholdSetting: Option<int>, messageSetting: Option<string>)
      ensures state == Idle && noFaceCount == 0
      ensures maxNoFaceCount == (if thresholdSetting.Some? then thresholdSetting.value else DefaultThreshold)
      ensures message == (if messageSetting.Some? then messageSetting.value else DefaultMessage)
      ensures notifications == []
    {
      state := Idle;
      noFaceCount := 0;
      maxNoFaceCount := if thresholdSetting.Some? then thresholdSetting.value else DefaultThreshold;
      message := if messageSetting.Some? then messageSetting.value else DefaultMessage;
      notifications := [];
    }

    /** `set_state(state)`: replaces the state object and nothing else. */
    method SetState(s: State)
      modifies this`state
      ensures state == s
      ensures noFaceCount == old(noFaceCount) && maxNoFaceCount == old(maxNoFaceCount)
      ensures message == old(message) && notifications == old(notifications)
    {
      state := s;
    }

    /** `process_frame(person_detected, face_detected)`: delegates to the current state object. */
    method ProcessFrame(person: bool, face: bool)
      modifies this
      ensures Current() == Next(old(Current()), person, face, maxNoFaceCount).next
      ensures notifications == old(notifications)
              + if Next(old(Current()), person, face, maxNoFaceCount).notify then [message] else []
      ensures maxNoFaceCount == old(maxNoFaceCount) && message == old(message)
    {
      match state
      case Idle => ProcessIdle(this, person, face);
      case PersonDetected => ProcessPersonDetected(this, person, face);
      case FaceDetected => ProcessFaceDetected(this, person, face);
      case NoFaceDetected => ProcessNoFaceDetected(this, person, face);
    }

    /** `get_state()`: reads the current state object and changes nothing. */
    method GetState() returns (s: State)
      ensures s == state
    {
      s := state;
    }
  }

  /** `IdleState.process_frame`. */
  method ProcessIdle(sm: StateManagerService, person: bool, face: bool)
    requires sm.state == Idle
    modifies sm
    ensures sm.Current() == IdleNext(old(sm.Current()), person, face).next
    ensures sm.notifications == old(sm.notifications)
    ensures sm.maxNoFaceCount == old(sm.maxNoFaceCount) && sm.message == old(sm.message)
  {
    if person {
      sm.SetState(PersonDetected);
    }
  }

  /** `PersonDetectedState.process_frame`. */
  method ProcessPersonDetected(sm: StateManagerService, person: bool, face: bool)
    requires sm.state == PersonDetected
    modifies sm
    ensures sm.Current() == PersonDetectedNext(old(sm.Current()), person, face, sm.maxNoFaceCount).next
    ensures sm.notifications == old(sm.notifications)
            + if PersonDetectedNext(old(sm.Current()), person, face, sm.maxNoFaceCount).notify
              then [sm.message] else []
    ensures sm.maxNoFaceCount == old(sm.maxNoFaceCount) && sm.message == old(sm.message)
  {
    if face {
      sm.SetState(FaceDetected);
    } else {
      sm.noFaceCount := sm.noFaceCount + 1;
      if sm.noFaceCount >= sm.maxNoFaceCount {
        sm.SetState(NoFaceDetected);
        sm.notifications := sm.notifications + [sm.message];
      } else if !person {
        sm.SetState(Idle);
      }
    }
  }

  /** `FaceDetectedState.process_frame`. */
  method ProcessFaceDetected(sm: StateManagerService, person: bool, face: bool)
    requires sm.state == FaceDetected
    modifies sm
    ensures sm.Current() == FaceDetectedNext(old(sm.Current()), person, face).next
    ensures sm.notifications == old(sm.notifications)
    ensures sm.maxNoFaceCount == old(sm.maxNoFaceCount) && sm.message == old(sm.message)
  {
    if !face {
      sm.SetState(PersonDetected);
    }
  }

  /** `NoFaceDetectedState.process_frame`. */
  method ProcessNoFaceDetected(sm: StateManagerService, person: bool, face: bool)
    requires sm.state == NoFaceDetected
    modifies sm
    ensures sm.Current() == NoFaceDetectedNext(old(sm.Current()), person, face).next
    ensures sm.notifications == old(sm.notifications)
    ensures sm.maxNoFaceCount == old(sm.maxNoFaceCount) && sm.message == old(sm.message)
  {
    if person {
      sm.noFaceCount := 0;
      if face {
        sm.SetState(FaceDetected);
      } else {
        sm.SetState(PersonDetected);
      }
    }
  }
}
