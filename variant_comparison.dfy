/**
  * The enum manager (app/state_manager.py) and the state-pattern manager
  * (app/states/state_classes.py) are two different machines. With a face
  * seen every third frame, the enum manager resets its counter on each face
  * and never alerts, while the state-pattern manager keeps counting across
  * FaceDetected visits and alerts on the eighth frame.
  */
module VariantComparison {
  import Enum = EnumStateManager
  import Pattern = StateClasses
  import Signals

  /** The enum manager with a threshold of 3 on that input: no notification. */
  lemma EnumResetsOnIntermittentFace()
    ensures Enum.Run(Enum.Snapshot(Enum.Idle, 0),
                     [Signals.Signal(true, false), Signals.Signal(true, false), Signals.Signal(true, true),
                      Signals.Signal(true, false), Signals.Signal(true, false), Signals.Signal(true, true),
                      Signals.Signal(true, false), Signals.Signal(true, false)], 3)
            == Enum.Outcome(Enum.Snapshot(Enum.PersonDetected, 2), 0)
  {
  }

  /** The state-pattern manager with a threshold of 3 on the same input: one notification. */
  lemma PatternAccumulatesOnIntermittentFace()
    ensures Pattern.Run(Pattern.Machine(Pattern.Idle, 0),
                        [Signals.Signal(true, false), Signals.Signal(true, false), Signals.Signal(true, true),
                         Signals.Signal(true, false), Signals.Signal(true, false), Signals.Signal(true, true),
                         Signals.Signal(true, false), Signals.Signal(true, false)], 3)
            == Pattern.Outcome(Pattern.Machine(Pattern.NoFaceDetected, 3), 1)
  {
  }
}
