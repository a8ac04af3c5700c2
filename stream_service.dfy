/**
  * `StreamService` (app/services/stream_service.py): the capture loop that
  * moves frames from the camera into the camera's own deque, evicting by
  * hand before each append, and the pop-oldest reader over that deque.
  *
  * The camera read is the `captured` parameter (`None` for a failed read);
  * the FPS text drawn on the frame does not change any modelled state, and
  * the lock and the thread are not part of this model.
  */
module StreamService {
  import opened Wrappers
  import opened Frames
  import opened FrameBuffers
  import opened Cameras

  /** The frames of the successful camera reads, in capture order. */
  function Captured(captures: seq<Option<Frame>>): (r: seq<Frame>)
    ensures |r| <= |captures|
    decreases |captures|
  {
    if captures == [] then []
    else
      var init := Captured(captures[..|captures| - 1]);
      match captures[|captures| - 1]
      case Some(f) => init + [f]
      case None => init
  }

  lemma CapturedStep(captures: seq<Option<Frame>>, i: nat)
    requires i < |captures|
    ensures Captured(captures[..i + 1])
            == Captured(captures[..i]) + if captures[i].Some? then [captures[i].value] else []
  {
    assert captures[..i + 1][..i] == captures[..i];
  }

  /** One capture keeps the deque equal to the most recent `bound` frames captured. */
  lemma CaptureStep(start: seq<Frame>, done: seq<Frame>, before: seq<Frame>, f: Frame, bound: nat)
    requires before == Bounded(start + done, Some(bound))
    ensures EvictedThenAppended(before, f, bound, Some(bound)) == Bounded(start + (done + [f]), Some(bound))
  {
    assert EvictedThenAppended(before, f, bound, Some(bound)) == Bounded(before + [f], Some(bound));
    assert Bounded(before + [f], Some(bound)) == Bounded(start + done + [f], Some(bound)) by {
      BoundedAbsorbs(start + done, [f], Some(bound));
    }
    assert start + done + [f] == start + (done + [f]);
  }

  /** One iteration of the capture loop keeps the loop invariant of `UpdateFrame`. */
  lemma LoopStep(captures: seq<Option<Frame>>, i: nat, start: seq<Frame>, before: seq<Frame>, after: seq<Frame>,
                 bound: nat)
    requires i < |captures|
    requires before == Bounded(start + Captured(captures[..i]), Some(bound))
    requires captures[i].None? ==> after == before
    requires captures[i].Some? ==> after == EvictedThenAppended(before, captures[i].value, bound, Some(bound))
    ensures after == Bounded(start + Captured(captures[..i + 1]), Some(bound))
    ensures |Captured(captures[..i + 1])| == |Captured(captures[..i])| + if captures[i].Some? then 1 else 0
  {
    var done := Captured(captures[..i]);
    CapturedStep(captures, i);
    if captures[i].Some? {
      var f := captures[i].value;
      assert Captured(captures[..i + 1]) == done + [f];
      CaptureStep(start, done, before, f, bound);
    } else {
      assert Captured(captures[..i + 1]) == done;
      assert after == Bounded(start + done, Some(bound));
    }
  }

  class StreamService {
    const camera: Camera
    var running: bool
    var frameCount: nat

    ghost predicate Valid()
      reads this, camera, camera.frameBuffer
    {
      camera.Valid()
    }

    constructor (camera: Camera)
      requires camera.Valid()
      ensures Valid() && this.camera == camera
      ensures running && frameCount == 0
    {
      this.camera := camera;
      running := true;
      frameCount := 0;
    }

    /**
      * One iteration of `_update_frame`: a failed read changes nothing; a
      * frame is counted and, after the oldest is dropped if the deque is
      * over `buffer_size`, appended.
      */
    method UpdateFrameOnce(captured: Option<Frame>)
      requires Valid()
      modifies this, camera.frameBuffer
      ensures Valid() && running == old(running)
      ensures captured.None? ==> frameCount == old(frameCount)
                                 && camera.frameBuffer.items == old(camera.frameBuffer.items)
      ensures captured.Some? ==> frameCount == old(frameCount) + 1
      ensures captured.Some? ==>
                camera.frameBuffer.items
                == EvictedThenAppended(old(camera.frameBuffer.items), captured.value, camera.bufferSize, Some(camera.bufferSize))
    {
      if captured.Some? {
        frameCount := frameCount + 1;
        camera.frameBuffer.PushEvicting(captured.value, camera.bufferSize);
      }
    }

    /**
      * `_update_frame` over a finite script of camera captures: while `running`
      * (which only another thread could clear), every read is handled by one
      * iteration. The deque then holds the most recent `buffer_size` frames
      * that were captured.
      */
    method UpdateFrame(captures: seq<Option<Frame>>)
      requires Valid()
      modifies this, camera.frameBuffer
      ensures Valid() && running == old(running)
      ensures !running ==> frameCount == old(frameCount)
                           && camera.frameBuffer.items == old(camera.frameBuffer.items)
      ensures running ==> frameCount == old(frameCount) + |Captured(captures)|
      ensures running ==>
                camera.frameBuffer.items
                == Bounded(old(camera.frameBuffer.items) + Captured(captures), Some(camera.bufferSize))
    {
      ghost var start := camera.frameBuffer.items;
      var i := 0;
      while running && i < |captures|
        invariant 0 <= i <= |captures|
        invariant Valid() && running == old(running)
        invariant !running ==> i == 0
        invariant frameCount == old(frameCount) + |Captured(captures[..i])|
        invariant camera.frameBuffer.items == Bounded(start + Captured(captures[..i]), Some(camera.bufferSize))
        decreases |captures| - i
      {
        ghost var before := camera.frameBuffer.items;
        UpdateFrameOnce(captures[i]);
        LoopStep(captures, i, start, before, camera.frameBuffer.items, camera.bufferSize);
        i := i + 1;
      }
      if running {
        assert captures[..i] == captures;
      }
    }

    /** `get_frame()`: the oldest frame of the camera deque, or `None` when it is empty. */
    method GetFrame() returns (f: Option<Frame>)
      requires Valid()
      modifies camera.frameBuffer
      ensures Valid()
      ensures (f, camera.frameBuffer.items) == PopOldestOf(old(camera.frameBuffer.items))
    {
      f := camera.frameBuffer.PopOldest();
    }

    /** `release_resources()`: stops the capture loop. */
    method ReleaseResources()
      modifies this`running
      ensures !running
    {
      running := false;
    }
  }
}
