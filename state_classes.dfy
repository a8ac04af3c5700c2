/**
  * The state-pattern debounce machine of `app/states/state_classes.py`, the
  * one the application wires up (through `StateManagerService`).
  *
  * Each state object reacts to a frame by changing the manager's counter and
  * installing a successor state. Here a state is a tag and each class's
  * `process_frame` is a function from the manager's old state and counter to
  * the new ones; the manager class that those functions specify is in module
  * StatePatternService.
  *
  * Unlike the enum variant, the counter is reset in one place only (leaving
  * the alert state with a person in view), so it accumulates over visits to
  * FaceDetected and Idle.
  */
module StateClasses {
  import opened Frames
  import opened Signals

  datatype State = Idle | PersonDetected | FaceDetected | NoFaceDetected

  /** The manager's state object and counter. */
  datatype Machine = Machine(state: State, noFaceCount: nat)

  /** The effect of one frame: the new machine and whether `send_notification` was called. */
  datatype Step = Step(next: Machine, notify: bool)

  /** The outcome of a run of frames: the final machine and the number of notifications sent. */
  datatype Outcome = Outcome(final: Machine, notifications: nat)

  /** `get_annotation()`: the text drawn on the frame. */
  function Annotation(s: State): (r: string)
  {
    match s
    case Idle => "Idle"
    case PersonDetected => "Person"
    case FaceDetected => "Face"
    case NoFaceDetected => "Face Not Detected"
  }

  /** `get_color()`: the colour of that text. */
  function TextColor(s: State): (r: Color)
  {
    match s
    case Idle => Rgb(255, 255, 255)
    case PersonDetected => Rgb(255, 0, 0)
    case FaceDetected => Rgb(0, 255, 0)
    case NoFaceDetected => Rgb(0, 0, 255)
  }

  /** The fixed annotation table, and that the text and the colour each identify the state. */
  lemma AnnotationTable(s: State, t: State)
    ensures Annotation(Idle) == "Idle" && TextColor(Idle) == Rgb(255, 255, 255)
    ensures Annotation(PersonDetected) == "Person" && TextColor(PersonDetected) == Rgb(255, 0, 0)
    ensures Annotation(FaceDetected) == "Face" && TextColor(FaceDetected) == Rgb(0, 255, 0)
    ensures Annotation(NoFaceDetected) == "Face Not Detected" && TextColor(NoFaceDetected) == Rgb(0, 0, 255)
    ensures Annotation(s) == Annotation(t) ==> s == t
    ensures TextColor(s) == TextColor(t) ==> s == t
  {
  }

  /** `IdleState.process_frame`: a person moves to PersonDetected; the counter and the face flag play no part. */
  function IdleNext(m: Machine, person: bool, face: bool): (r: Step)
    requires m.state == Idle
    ensures r.next.noFaceCount == m.noFaceCount && !r.notify
    ensures r.next.state == (if person then PersonDetected else Idle)
  {
    if person then Step(Machine(PersonDetected, m.noFaceCount), false) else Step(m, false)
  }

  /**
    * `PersonDetectedState.process_frame`: a face moves to FaceDetected without
    * touching the counter; otherwise the counter goes up by one, whether or not
    * a person is in view, and reaching the threshold raises the alert with one
    * notification; below it the machine falls back to Idle when there is no
    * person, keeping the counter.
    */
  function PersonDetectedNext(m: Machine, person: bool, face: bool, threshold: int): (r: Step)
    requires m.state == PersonDetected
    ensures face ==> r == Step(Machine(FaceDetected, m.noFaceCount), false)
    ensures !face ==> r.next.noFaceCount == m.noFaceCount + 1
    ensures !face ==> (r.notify <==> m.noFaceCount + 1 >= threshold)
    ensures r.notify <==> r.next.state == NoFaceDetected
    ensures !face && m.noFaceCount + 1 < threshold ==> r.next.state == (if person then PersonDetected else Idle)
  {
    if face then Step(Machine(FaceDetected, m.noFaceCount), false)
    else
      var count := m.noFaceCount + 1;
      if count >= threshold then Step(Machine(NoFaceDetected, count), true)
      else if !person then Step(Machine(Idle, count), false)
      else Step(Machine(PersonDetected, count), false)
  }

  /** `FaceDetectedState.process_frame`: any frame without a face, with or without a person, moves to PersonDetected. */
  function FaceDetectedNext(m: Machine, person: bool, face: bool): (r: Step)
    requires m.state == FaceDetected
    ensures r.next.noFaceCount == m.noFaceCount && !r.notify
    ensures r.next.state == (if face then FaceDetected else PersonDetected)
  {
    if !face then Step(Machine(PersonDetected, m.noFaceCount), false) else Step(m, false)
  }

  /**
    * `NoFaceDetectedState.process_frame`: a person resets the counter and moves
    * to FaceDetected or PersonDetected by the face flag; no person changes nothing.
    */
  function NoFaceDetectedNext(m: Machine, person: bool, face: bool): (r: Step)
    requires m.state == NoFaceDetected
    ensures !r.notify
    ensures !person ==> r.next == m
    ensures person ==> r.next == Machine(if face then FaceDetected else PersonDetected, 0)
  {
    if person then Step(Machine(if face then FaceDetected else PersonDetected, 0), false) else Step(m, false)
  }

  /**
    * The states reachable from a new manager with a fixed threshold of at
    * least one frame: the counter stays below the threshold outside the alert
    * state and equals it inside.
    */
  ghost predicate Reachable(m: Machine, threshold: int)
  {
    if m.state == NoFaceDetected then m.noFaceCount == threshold else m.noFaceCount < threshold
  }

  /** `StateManagerService.process_frame`: delegation to the current state object. */
  function Next(m: Machine, person: bool, face: bool, threshold: int): (r: Step)
    // notifications are sent exactly on entry to the alert state, and only from PersonDetected
    ensures r.notify <==> m.state != NoFaceDetected && r.next.state == NoFaceDetected
    ensures r.notify ==> m.state == PersonDetected
    // the only counter changes are +1 in PersonDetected and the reset leaving NoFaceDetected
    ensures r.next.noFaceCount == m.noFaceCount
            || (m.state == PersonDetected && !face && r.next.noFaceCount == m.noFaceCount + 1)
            || (m.state == NoFaceDetected && person && r.next.noFaceCount == 0)
    // with a fixed threshold of at least one frame the reachable states are closed under a step
    ensures threshold >= 1 && Reachable(m, threshold) ==> Reachable(r.next, threshold)
  {
    match m.state
    case Idle => IdleNext(m, person, face)
    case PersonDetected => PersonDetectedNext(m, person, face, threshold)
    case FaceDetected => FaceDetectedNext(m, person, face)
    case NoFaceDetected => NoFaceDetectedNext(m, person, face)
  }

  /** Feeding a sequence of signals, one `process_frame` call each. */
  function Run(m: Machine, signals: seq<Signal>, threshold: int): (r: Outcome)
    decreases |signals|
  {
    if signals == [] then Outcome(m, 0)
    else
      var step := Next(m, signals[0].person, signals[0].face, threshold);
      var rest := Run(step.next, signals[1..], threshold);
      Outcome(rest.final, rest.notifications + if step.notify then 1 else 0)
  }

  /**
    * The counter stays within `cap`: at most `cap` in the alert state, below
    * it elsewhere. With `cap` the threshold this is implied by `Reachable`;
    * with a larger `cap` it survives lowering the threshold.
    */
  ghost predicate WithinCap(m: Machine, cap: int)
  {
    if m.state == NoFaceDetected then m.noFaceCount <= cap else m.noFaceCount < cap
  }

  /** One frame under any threshold in `[1, cap]` keeps the counter within `cap`. */
  lemma NextStaysWithinCap(m: Machine, person: bool, face: bool, threshold: int, cap: int)
    requires 1 <= threshold <= cap && WithinCap(m, cap)
    ensures WithinCap(Next(m, person, face, threshold).next, cap)
  {
  }

  /**
    * Over any sequence of frames under a fixed threshold in `[1, cap]`, a
    * counter that started within `cap` stays within it.
    */
  lemma {:induction false} RunStaysWithinCap(m: Machine, signals: seq<Signal>, threshold: int, cap: int)
    requires 1 <= threshold <= cap && WithinCap(m, cap)
    ensures WithinCap(Run(m, signals, threshold).final, cap)
    ensures Run(m, signals, threshold).final.noFaceCount <= cap
    decreases |signals|
  {
    if signals != [] {
      NextStaysWithinCap(m, signals[0].person, signals[0].face, threshold, cap);
      RunStaysWithinCap(Next(m, signals[0].person, signals[0].face, threshold).next, signals[1..], threshold, cap);
    }
  }

  /**
    * From PersonDetected below the threshold, no-face frames with a person in
    * view count up to the threshold and then raise the alert with one
    * notification.
    */
  lemma {:induction false} NoFaceFramesReachAlert(m: Machine, threshold: int)
    requires m.state == PersonDetected && m.noFaceCount < threshold
    ensures Run(m, NoFaceFrames(threshold - m.noFaceCount), threshold)
            == Outcome(Machine(NoFaceDetected, threshold), 1)
    decreases threshold - m.noFaceCount
  {
    var n := threshold - m.noFaceCount;
    assert NoFaceFrames(n)[1..] == NoFaceFrames(n - 1);
    var next := Next(m, true, false, threshold).next;
    if m.noFaceCount + 1 < threshold {
      NoFaceFramesReachAlert(next, threshold);
    }
  }

  /**
    * A person who stays in view without a face does not silence the alert:
    * the first such frame in NoFaceDetected resets the counter and leaves the
    * alert, and after `threshold` more the alert is raised again with one more
    * notification.
    */
  lemma PersistentNoFaceRealerts(m: Machine, threshold: int)
    requires threshold >= 1 && m.state == NoFaceDetected
    ensures Run(m, NoFaceFrames(threshold + 1), threshold) == Outcome(Machine(NoFaceDetected, threshold), 1)
  {
    assert NoFaceFrames(threshold + 1)[1..] == NoFaceFrames(threshold);
    NoFaceFramesReachAlert(Machine(PersonDetected, 0), threshold);
  }

  /** Running two sequences of frames in a row: the outcomes compose and the notifications add up. */
  lemma {:induction false} RunConcat(m: Machine, a: seq<Signal>, b: seq<Signal>, threshold: int)
    ensures Run(m, a + b, threshold).final == Run(Run(m, a, threshold).final, b, threshold).final
    ensures Run(m, a + b, threshold).notifications
            == Run(m, a, threshold).notifications + Run(Run(m, a, threshold).final, b, threshold).notifications
    decreases |a|
  {
    if a == [] {
      assert a + b == b;
    } else {
      assert (a + b)[1..] == a[1..] + b;
      RunConcat(Next(m, a[0].person, a[0].face, threshold).next, a[1..], b, threshold);
    }
  }

  /**
    * So under an unbroken stretch of no-face frames with a person in view,
    * the wired machine notifies once every `threshold + 1` frames: `k` such
    * stretches from the alert state send `k` notifications.
    */
  lemma {:induction false} PersistentNoFaceNotifiesEveryPeriod(m: Machine, threshold: int, k: nat)
    requires threshold >= 1 && m.state == NoFaceDetected
    ensures Run(m, NoFaceFrames(k * (threshold + 1)), threshold).notifications == k
    ensures k > 0 ==> Run(m, NoFaceFrames(k * (threshold + 1)), threshold).final
                      == Machine(NoFaceDetected, threshold)
    decreases k
  {
    if k > 0 {
      var p := threshold + 1;
      assert k * p == p + (k - 1) * p;
      NoFaceFramesSplit(p, (k - 1) * p);
      RunConcat(m, NoFaceFrames(p), NoFaceFrames((k - 1) * p), threshold);
      PersistentNoFaceRealerts(m, threshold);
      PersistentNoFaceNotifiesEveryPeriod(Machine(NoFaceDetected, threshold), threshold, k - 1);
    }
  }

  /**
    * Over any sequence of frames and a fixed threshold of at least one frame,
    * the counter is below the threshold outside the alert and equal to it in
    * the alert: this variant's counter is capped.
    */
  lemma {:induction false} RunStaysReachable(m: Machine, signals: seq<Signal>, threshold: int)
    requires threshold >= 1 && Reachable(m, threshold)
    ensures Reachable(Run(m, signals, threshold).final, threshold)
    ensures Run(m, signals, threshold).final.noFaceCount <= threshold
    decreases |signals|
  {
    if signals != [] {
      var step := Next(m, signals[0].person, signals[0].face, threshold);
      RunStaysReachable(step.next, signals[1..], threshold);
    }
  }

  /**
    * The counter accumulates: a run that starts outside the alert state and
    * sends no notification never enters the alert state, so it never resets
    * the counter, whatever FaceDetected and Idle visits it makes.
    */
  lemma {:induction false} CounterNeverResetsWithoutAlert(m: Machine, signals: seq<Signal>, threshold: int)
    requires m.state != NoFaceDetected
    requires Run(m, signals, threshold).notifications == 0
    ensures Run(m, signals, threshold).final.state != NoFaceDetected
    ensures Run(m, signals, threshold).final.noFaceCount >= m.noFaceCount
    decreases |signals|
  {
    if signals != [] {
      var step := Next(m, signals[0].person, signals[0].face, threshold);
      CounterNeverResetsWithoutAlert(step.next, signals[1..], threshold);
    }
  }

  /**
    * Every notification of a run is an entry into the alert state, so a run
    * that starts in the alert state and so never leaves it (no person in any
    * frame) sends none.
    */
  lemma {:induction false} AlertWithoutPersonIsSilent(m: Machine, signals: seq<Signal>, threshold: int)
    requires m.state == NoFaceDetected
    requires forall i :: 0 <= i < |signals| ==> !signals[i].person
    ensures Run(m, signals, threshold) == Outcome(m, 0)
    decreases |signals|
  {
    if signals != [] {
      AlertWithoutPersonIsSilent(m, signals[1..], threshold);
    }
  }
}
