/**
  * What the debounce machines of `app/state_manager.py` and
  * `app/states/state_classes.py` share: the detection signal each frame
  * delivers, and the message a manager sends when none is configured.
  */
module Signals {

  /** One detection signal `(person_detected, face_detected)`. */
  datatype Signal = Signal(person: bool, face: bool)

  /** The `message` both managers fall back on. */
  const DefaultMessage: string := "No message provided!"

  /** `n` consecutive frames with `(person_detected=True, face_detected=False)`. */
  function NoFaceFrames(n: nat): (r: seq<Signal>)
    ensures |r| == n && forall i :: 0 <= i < n ==> r[i] == Signal(true, false)
  {
    if n == 0 then [] else [Signal(true, false)] + NoFaceFrames(n - 1)
  }

  /** A stretch of no-face frames is two shorter stretches in a row. */
  lemma {:induction false} NoFaceFramesSplit(a: nat, b: nat)
    ensures NoFaceFrames(a + b) == NoFaceFrames(a) + NoFaceFrames(b)
    decreases a
  {
    if a == 0 {
      assert NoFaceFrames(0) + NoFaceFrames(b) == NoFaceFrames(b);
    } else {
      NoFaceFramesSplit(a - 1, b);
      assert NoFaceFrames(a + b) == [Signal(true, false)] + NoFaceFrames(a - 1 + b);
    }
  }
}
