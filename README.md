# baby_monitor: a verified model of the debounce machines and frame pipeline

This project models the core logic of baby_monitor. The application reads frames from a camera and detects faces in them; only `VideoDetector` also detects persons. The detector that `main.py` wires up, `DetectorService`, always reports a person (app/services/detector_service.py:50-55). The detection signals drive a debounce machine. Once a person has been in view without a visible face for a configured number of frames, the machine calls `send_notification`, which in the wired Pushover service only prints the message (app/services/pushover_service.py:18-24). The server streams the frames of the camera's own deque over HTTP (app/services/server_service.py:76-81). The annotated frames go into `DetectorService`'s separate output deque, which nothing reads.

The model covers four parts:

- **Three debounce state machines.** They are kept separate because they behave differently:
  - `EnumStateManager` models the enum-based manager. Its counter is never capped and it resets on every face or empty frame.
  - `StateClasses` and `StatePatternService` model the state pattern that the application wires up. Its counter is reset only when the alert is left with a person in view. A person who stays in view without a face leaves the alert on the next frame, because the counter resets and the state moves to PersonDetected (app/states/state_classes.py:62-67). The alert is then raised again after `threshold` more frames, so this machine notifies once every `threshold + 1` such frames. The enum manager notifies once for the whole stretch.
  - `LegacyDetectionState` models the two-state manager, which sends no notification.
  - Each machine is a class whose methods update its fields. Each method is proved against a pure transition function, and run-level invariants are proved about that function.
- **Frame buffers.** `FrameBuffers.FrameDeque` models Python's `collections.deque` with an optional `maxlen`. It supports append (dropping the oldest item when full), the stream service's evict-then-append, and the pop-oldest-or-`None` read.
- **The per-frame pipeline steps**, one iteration each:
  - `StreamService` (plus its capture loop over a finite sequence of reads);
  - `VideoFaceDetector`;
  - `VideoDetector`;
  - `DetectorService`.

  In these steps the camera read, the person and face detectors and the JPEG encoder are parameters, also called inputs: an optional frame, functions returning box lists, and a function returning optional bytes. Drawing on a frame changes no modelled state.
- **The threshold update of `ServerService`.** It checks the new threshold against bounds derived from the frame rate.

Only a notification's message matters to the logic, so each `send_notification` call is recorded in a ghost log, `notifications`, on the manager.

Two behaviours of the code are worth stating on their own:

- **A face without a person is not treated as presence.** The enum manager ignores the face flag when there is no person and goes to IDLE (app/state_manager.py:27-28, 46-49). The state-pattern classes react by state to `(person=False, face=True)`: Idle stays Idle (app/states/state_classes.py:22-23), PersonDetected moves to FaceDetected, since it acts on any face (app/states/state_classes.py:33-34), FaceDetected stays (app/states/state_classes.py:51-52), and NoFaceDetected is unchanged (app/states/state_classes.py:62). Among frames without a person, only `(person=False, face=False)` makes PersonDetected count a missed face (app/states/state_classes.py:35-36).
- **The counter bound.** For a fixed threshold, the counter stays within the threshold only in the state-pattern machine (`StateClasses.RunStaysReachable`). For the enum manager, `EnumStateManager.NoFaceRunNotifiesOnce` shows the counter rising past the threshold. `update_threshold` changes the threshold without touching the counter (app/services/server_service.py:59). After a change, the state-pattern counter stays within the larger of the old and new thresholds (`ServerService.AcceptedThresholdKeepsCounterBounded`). A lowered threshold can be exceeded (`ServerService.LoweredThresholdIsExceeded`).

## Model

| member | source | states |
|---|---|---|
| FrameBuffers.Bounded | app/services/opencv_camera_service.py:27 | what a deque bounded by `maxlen` retains: its most recent `maxlen` items, in order; no bound retains everything |
| FrameBuffers.Appended | app/video_face_detector.py:142 | `append` puts the item last and never exceeds `maxlen`; below capacity nothing is dropped; at capacity exactly the oldest item is dropped; the result is a suffix of old items plus the new one |
| FrameBuffers.EvictedThenAppended | app/services/stream_service.py:35-37 | evict-then-append keeps the new frame last and the retained frames in order; when the check fires on an unbounded deque, exactly the oldest frame is dropped; when it does not fire and the deque has room, every frame is kept; it keeps a bounded deque within `maxlen`; on its own it keeps the length at most `buffer_size + 1` |
| FrameBuffers.PopOldestOf | app/services/stream_service.py:44-48 | the guarded `popleft` returns the oldest item and the rest, or `None` with the sequence unchanged when it is empty |
| FrameBuffers.FrameDeque.constructor | app/services/opencv_camera_service.py:27 | a new deque is empty, with the given bound |
| FrameBuffers.FrameDeque.Push | app/video_face_detector.py:142 | `append` mutates the deque to exactly `Appended` of its old contents, keeping the bound invariant |
| FrameBuffers.FrameDeque.PushEvicting | app/services/stream_service.py:35-37 | the stream service's evict check then `append`, equal to `EvictedThenAppended` of the old contents |
| FrameBuffers.FrameDeque.PopOldest | app/services/stream_service.py:44-48 | returns `None` and leaves an empty deque unchanged; otherwise returns the leftmost item and removes exactly it |
| FrameBuffers.BoundedAbsorbs | app/services/opencv_camera_service.py:27 | trimming to the bound before more appends gives the same retained items as trimming once at the end |
| FrameBuffers.PushAllKeepsMostRecent | app/services/opencv_camera_service.py:27 | after any number of appends, a bounded deque holds exactly the most recent `maxlen` of all items seen |
| FrameBuffers.EvictCheckRedundantUnderMaxlen | app/services/stream_service.py:35-37 | under the camera's `deque(maxlen=buffer_size)`, the explicit `len > buffer_size` check never fires: evict-then-append runs equal plain appends and stay within `buffer_size` |
| FrameBuffers.EvictCheckAloneAllowsOneExtra | app/services/stream_service.py:35-37 | without the deque's own bound, the `>` check alone keeps the buffer at most `buffer_size + 1` frames; from empty, `n` frames leave `min(n, buffer_size + 1)` of them, so the buffer reaches `buffer_size + 1`, and once there it stays there |
| FrameBuffers.PopManyInOrder | app/services/stream_service.py:44-48 | `k` reads of a deque holding at least `k` items return its first `k` items, oldest first, and leave the rest |
| FrameBuffers.PushThenPopInOrder | app/services/stream_service.py:37-47 | appending frames to an empty deque of capacity `n` and reading `min(count, n)` times returns the most recent frames in push order and empties the deque; with at most `n` frames that is all of them |
| EnumStateManager.Transition | app/state_manager.py:30-49 | notify exactly on entry to NO_FACE_DETECTED; a face with a person gives FACE_DETECTED, resetting the counter unless already there; a person without a face adds one to the counter in every state, uncapped, and gives NO_FACE_DETECTED iff the counter reaches the threshold, else PERSON_DETECTED; no person gives IDLE with counter 0; the reachable-state invariant is preserved |
| EnumStateManager.FaceIgnoredWithoutPerson | app/state_manager.py:46-49 | with no person, the face flag has no effect |
| EnumStateManager.RunStaysReachable | app/state_manager.py:30-49 | over any input sequence with a fixed threshold of at least 1: IDLE and FACE_DETECTED have counter 0, PERSON_DETECTED has 1 ≤ counter < threshold, NO_FACE_DETECTED has counter ≥ threshold |
| EnumStateManager.NoFaceRunNotifiesOnce | app/state_manager.py:37-42 | `n` no-face frames raise the counter by exactly `n`, also past the threshold; the machine is in the alert state iff the counter reached the threshold; the run notifies once when it enters the alert and never again |
| EnumStateManager.StateManager.constructor | app/state_manager.py:13-18 | starts in IDLE with counter 0 and an empty notification log; the message defaults to 'No message provided!' |
| EnumStateManager.StateManager.TransitionState | app/state_manager.py:30-49 | updates the state and counter to `Transition` of the old ones, logs the message exactly when `Transition` notifies, and keeps the threshold |
| EnumStateManager.StateManager.ProcessFrame | app/state_manager.py:20-28 | has the same effect as `TransitionState` on the same two flags |
| EnumStateManager.StateManager.GetState | app/state_manager.py:51-52 | returns the state and changes nothing |
| StateClasses.AnnotationTable | app/states/state_classes.py:25-73 | the fixed annotation text and colour of each state: Idle white, Person red, Face green, Face Not Detected blue; different states have different texts and different colours |
| StateClasses.IdleNext | app/states/state_classes.py:21-23 | Idle moves to PersonDetected iff there is a person; it ignores the face flag and never touches the counter or notifies |
| StateClasses.PersonDetectedNext | app/states/state_classes.py:32-41 | a face moves to FaceDetected without resetting the counter; without a face the counter goes up by one even with no person; reaching the threshold enters NoFaceDetected with exactly one notification; below it, no person gives Idle and a person stays PersonDetected |
| StateClasses.FaceDetectedNext | app/states/state_classes.py:50-52 | any frame without a face moves to PersonDetected, with or without a person; a face changes nothing |
| StateClasses.NoFaceDetectedNext | app/states/state_classes.py:61-67 | a person resets the counter to 0 and moves to FaceDetected or PersonDetected according to the face flag; no person changes nothing; never notifies |
| StateClasses.Next | app/services/state_manager_service.py:18-20 | delegation: notifies exactly on entry to NoFaceDetected, and only from PersonDetected; the counter changes only by +1 in PersonDetected or by reset to 0 leaving NoFaceDetected; the reachable-state invariant is preserved |
| StateClasses.RunStaysReachable | app/states/state_classes.py:32-67 | over any input sequence with a fixed threshold of at least 1, the counter is below the threshold outside the alert and equal to it inside, so it never exceeds the threshold |
| StateClasses.RunStaysWithinCap | app/states/state_classes.py:32-67 | under a fixed threshold in `[1, cap]`, a counter that starts within `cap` (at most `cap` in the alert, below it elsewhere) stays within `cap` over any run |
| StateClasses.NoFaceFramesReachAlert | app/states/state_classes.py:35-39 | from PersonDetected below the threshold, no-face frames with a person in view count up to the threshold and then raise the alert with exactly one notification |
| StateClasses.PersistentNoFaceRealerts | app/states/state_classes.py:35-67 | from the alert state, `threshold + 1` no-face frames with a person in view leave the alert, count back up and raise it again, with exactly one notification |
| StateClasses.RunConcat | app/services/state_manager_service.py:18-20 | running two sequences of frames in a row gives the final machine of running the second from the first's end, and the notifications add up |
| StateClasses.PersistentNoFaceNotifiesEveryPeriod | app/states/state_classes.py:35-67 | `k` stretches of `threshold + 1` no-face frames with a person in view, starting in the alert state, send exactly `k` notifications and end in the alert |
| StateClasses.CounterNeverResetsWithoutAlert | app/states/state_classes.py:36-63 | a run that starts outside the alert and sends no notification never enters the alert and never lowers the counter: the counter accumulates across FaceDetected and Idle visits |
| StateClasses.AlertWithoutPersonIsSilent | app/states/state_classes.py:61-67 | from the alert state, frames without a person change nothing and send no notification |
| StatePatternService.StateManagerService.constructor | app/services/state_manager_service.py:7-12 | starts in Idle with counter 0; the threshold defaults to 100 and the message to 'No message provided!' when the settings are missing |
| StatePatternService.StateManagerService.SetState | app/services/state_manager_service.py:14-16 | replaces only the state; counter, threshold, message and notification log are unchanged |
| StatePatternService.StateManagerService.ProcessFrame | app/services/state_manager_service.py:18-20 | updates state and counter to `Next` of the old ones, logs the message exactly when `Next` notifies, and keeps threshold and message |
| StatePatternService.StateManagerService.GetState | app/services/state_manager_service.py:22-24 | returns the state and changes nothing |
| StatePatternService.ProcessIdle | app/states/state_classes.py:21-23 | the mutation of the manager equals `IdleNext` and logs nothing |
| StatePatternService.ProcessPersonDetected | app/states/state_classes.py:32-41 | the mutation of the manager equals `PersonDetectedNext`, logging the manager's message exactly when it notifies |
| StatePatternService.ProcessFaceDetected | app/states/state_classes.py:50-52 | the mutation of the manager equals `FaceDetectedNext` and logs nothing |
| StatePatternService.ProcessNoFaceDetected | app/states/state_classes.py:61-67 | the mutation of the manager equals `NoFaceDetectedNext` and logs nothing |
| LegacyDetectionState.Transition | app/detection_state.py:13-23 | a face gives FACE_DETECTED with counter 0; no face adds exactly one to the counter; the state changes to FACE_NOT_DETECTED only once the counter reaches the threshold and is unchanged below it; consistency is preserved |
| LegacyDetectionState.RunStaysConsistent | app/detection_state.py:13-23 | over any input sequence with a fixed threshold of at least 1, the state is FACE_NOT_DETECTED iff the counter is at least the threshold |
| LegacyDetectionState.CounterCountsTrailingMisses | app/detection_state.py:15-20 | after any run the counter is the number of frames since the last face, plus the initial count when there was no face |
| LegacyDetectionState.StateManager.constructor | app/detection_state.py:8-11 | starts in FACE_DETECTED with counter 0 and a threshold defaulting to 100 |
| LegacyDetectionState.StateManager.TransitionState | app/detection_state.py:13-23 | updates state and counter to `Transition` of the old ones and keeps the threshold |
| LegacyDetectionState.StateManager.GetState | app/detection_state.py:25-26 | returns the state and changes nothing |
| Cameras.Camera.constructor | app/services/opencv_camera_service.py:25-27 | a camera's deque is new, empty and bounded by its buffer size |
| StreamService.StreamService.constructor | app/services/stream_service.py:11-15 | starts running with frame count 0 |
| StreamService.StreamService.UpdateFrameOnce | app/services/stream_service.py:30-37 | a failed read leaves the deque and frame count unchanged; a frame is counted once and goes through evict-then-append |
| StreamService.StreamService.UpdateFrame | app/services/stream_service.py:28-37 | over a sequence of reads while running, the frame count rises by the number of successful reads and the deque holds the most recent `buffer_size` captured frames, in capture order |
| StreamService.StreamService.GetFrame | app/services/stream_service.py:44-48 | pops the oldest frame, or returns `None` with the deque unchanged |
| StreamService.StreamService.ReleaseResources | app/services/stream_service.py:50-51 | clears `running` |
| VideoFaceDetector.VideoFaceDetector.constructor | app/video_face_detector.py:20-32 | an empty deque bounded by `buffer_size`, running, frame count and detection counter 0 |
| VideoFaceDetector.VideoFaceDetector.UpdateFrame | app/video_face_detector.py:86-145 | a failed read changes nothing; otherwise the frame is counted once, the detection counter advances modulo 100 and stays below it, and the encoded frame is appended iff running and encoding succeeded |
| VideoFaceDetector.VideoFaceDetector.GetFrame | app/video_face_detector.py:152-157 | pops the oldest frame, or returns `None` with the deque unchanged |
| VideoFaceDetector.VideoFaceDetector.ReleaseResources | app/video_face_detector.py:159-161 | clears `running`, after which `UpdateFrame` never appends |
| VideoDetector.DetectionSignal | app/video_detector.py:28-36 | no state-manager call iff there are no person boxes; otherwise the call has a person and a face iff there are face boxes |
| VideoDetector.VideoDetector.constructor | app/video_detector.py:12-20 | running, frame count 0, the given camera and state manager |
| VideoDetector.VideoDetector.UpdateFrame | app/video_detector.py:23-45 | a failed read makes no state-manager call and appends nothing; otherwise the signal is `DetectionSignal` of the detections, the enum manager moves by `Transition` exactly when there is a signal, the frame is counted, and the encoded frame is appended iff running and encoding succeeded |
| VideoDetector.VideoDetector.Detect | app/video_detector.py:28-36 | the signal is `DetectionSignal` of the two detectors' boxes, and the enum manager moves by `Transition` exactly when there is a signal |
| VideoDetector.VideoDetector.AppendEncoded | app/video_detector.py:41-45 | the encoded frame is appended to the camera deque iff running and encoding succeeded; otherwise the deque is unchanged |
| VideoDetector.VideoDetector.GetFrame | app/video_detector.py:61-65 | pops the oldest frame of the camera deque, or returns `None` and leaves it unchanged |
| VideoDetector.VideoDetector.ReleaseResources | app/video_detector.py:67-68 | clears `running`, after which `UpdateFrame` never appends |
| DetectorService.FaceSignal | app/services/detector_service.py:50-55 | the signal always has a person; it has a face iff there are face boxes |
| DetectorService.DetectorService.constructor | app/services/detector_service.py:14-23 | a new, empty, unbounded output deque, distinct from the camera's; running |
| DetectorService.DetectorService.ProcessFrameOnce | app/services/detector_service.py:36-61 | the input is the oldest frame of the camera deque, or `None` when it is empty; a missing or empty frame makes no state-manager call and appends nothing; otherwise the state-pattern manager moves by `Next` on `FaceSignal`, the annotation drawn is the one for the state after that call, and the frame is appended once at the right end |
| DetectorService.DetectorService.Detect | app/services/detector_service.py:50-57 | the signal is `FaceSignal` of the face boxes, the state-pattern manager moves by `Next` on it, and the annotation drawn is the one for the state after the call |
| DetectorService.DetectorService.ReleaseResources | app/services/detector_service.py:74-76 | clears `running` |
| ServerService.Accepts | app/services/server_service.py:51-56 | for a positive frame rate a threshold is accepted iff frame_rate ≤ t ≤ 20·frame_rate; without a truthy frame rate iff 5 ≤ t ≤ 100; a negative frame rate accepts nothing; every accepted threshold is at least 1 |
| ServerService.AcceptedThresholdKeepsCounterBounded | app/services/server_service.py:51-59 | after `update_threshold` stores an accepted threshold over a manager reachable for the old one, the state-pattern counter stays within the larger of the old and new thresholds over any later run |
| ServerService.LoweredThresholdIsExceeded | app/services/server_service.py:59 | lowering the threshold from 100 to 30 (accepted at 30 frames per second) with the counter at 50 lets the next no-face frame raise the alert with counter 51, past the new threshold |
| ServerService.ServerService.constructor | app/services/server_service.py:17-32 | the frame rate is the camera's |
| ServerService.ServerService.UpdateThreshold | app/services/server_service.py:48-63 | an accepted threshold is stored as `max_no_face_count` and answered with a 303 redirect to `/`; any other is answered with 400 and leaves `max_no_face_count` unchanged |
| ServerService.ServerService.GetFrame | app/services/server_service.py:76-81 | pops the oldest frame of the source's deque, or returns `None` with it unchanged |
| VariantComparison.EnumResetsOnIntermittentFace | app/state_manager.py:32-45 | with a threshold of 3, a face every third frame keeps the enum manager out of the alert: no notification after eight frames |
| VariantComparison.PatternAccumulatesOnIntermittentFace | app/states/state_classes.py:32-52 | the same eight frames drive the state-pattern manager into the alert with one notification, because its counter survives FaceDetected visits |

## Left out

- Threads, locks, the condition variable, and thread start and join are not modelled. Each loop iteration is a sequential method, and the stream loop runs over a finite sequence of reads. `running` is cleared only by `ReleaseResources`, never during a loop.
- OpenCV calls are not modelled: capture, resize, colour conversion, flipping, drawing and `imencode`. Capture is an optional-frame input, encoding is an optional-bytes function input, and drawing changes no modelled state.
- Bounding-box rescaling and the FPS value are not modelled, because they use float division and the clock. The frame counter that the FPS computation increments is modelled.
- The YOLO and face_recognition detectors are not modelled; they are function inputs returning box lists. So the rule that the video detector runs face detection only on frames with a person is visible only in `VideoDetector.DetectionSignal` ignoring the face boxes, not as a missing call.
- HTTP routing, templates, the multipart `generate_frames` stream, the uvicorn server, and the text of the 400 response are not modelled.
- The Pushover service's printing of the message, its commented-out HTTP call, the ffmpeg capture subprocess and YAML configuration loading are not modelled. `send_notification` is recorded in a ghost log, and configuration values are constructor parameters.
- VideoFaceDetector.VideoFaceDetector.constructor: the source raises when the webcam cannot be opened (app/video_face_detector.py:16-17), and when `frame_rate` is missing or 0, through `1.0 / self.frame_rate` (line 25). The model opens no device and has no frame rate, so its constructor always succeeds.
- Releasing the camera device and destroying windows in `release_resources` are not modelled; only the `running` flag is.
- EnumStateManager.StateManager.constructor: a missing `detection_threshold` gives `None` in the source, and the first no-face frame would then fail comparing an int with `None`. The model takes the threshold as an integer.
- The `buffer_size` of a camera is a natural number. A missing `buffer_size` gives an unbounded deque in the source, and the stream service's comparison with `None` would then fail. The face detector's own deque does accept an absent bound (`None`).
- ServerService.ServerService.UpdateThreshold: the `except ValueError` branch is not modelled. Assigning an attribute cannot raise it.
- `main.py` omits the detector service argument, `StateManagerService` lacks `transition_state`, and the drawing utilities import a missing name. These wiring defects are not modelled; each class's logic is modelled on its own.
- The face detector's `last_person_detected` field and its commented-out person detection and state-manager call are not modelled, since they have no effect in the code.
