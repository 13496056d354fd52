/** The single-slot render-frame mailbox: the Java side posts the frame it
    wants drawn, the renderer takes it at most once. A later post replaces an
    earlier one that has not been taken. */
module RenderFrame {

  /** The requested frame. The position and scale are only copied, never
      computed with, so they are kept as plain numbers. */
  datatype FrameRequest = FrameRequest(x: real, y: real, scale: real, width: nat, height: nat)

  datatype Option<T> = None | Some(value: T)

  /** The mailbox's contents: whether a frame is waiting, and the last frame
      posted (kept after it has been taken, as the static storage is). */
  datatype Slot = Slot(valid: bool, frame: FrameRequest)

  /** postRenderFrameRequest: store the frame and mark it waiting. */
  function Post(s: Slot, f: FrameRequest): Slot
  {
    Slot(true, f)
  }

  /** getRenderFrameRequest: the waiting frame, if any, and the slot after
      taking it, which holds no waiting frame. */
  function Take(s: Slot): (Option<FrameRequest>, Slot)
  {
    if s.valid then (Some(s.frame), Slot(false, s.frame)) else (None, s)
  }

  /** A frame posted is the frame taken next, and only once. */
  lemma TakeAfterPost(s: Slot, f: FrameRequest)
    ensures Take(Post(s, f)).0 == Some(f)
    ensures Take(Take(Post(s, f)).1).0 == None
  {
  }

  /** Whatever the slot held, a take leaves nothing waiting, and what it
      yields is the waiting frame, if there was one. */
  lemma TakeConsumes(s: Slot)
    ensures !Take(s).1.valid
    ensures s.valid <==> Take(s).0.Some?
    ensures Take(s).0.Some? ==> Take(s).0.value == s.frame
  {
  }

  /** Of two posts with no take between them, only the later one is seen. */
  lemma LastPostWins(s: Slot, f: FrameRequest, g: FrameRequest)
    ensures Post(Post(s, f), g) == Post(s, g)
    ensures Take(Post(Post(s, f), g)).0 == Some(g)
  {
  }

  /** Taking from a slot that holds no waiting frame yields nothing and
      leaves the slot as it was. */
  lemma TakeEmpty(s: Slot)
    requires !s.valid
    ensures Take(s) == (None, s)
  {
  }

  /** The process-wide mailbox (the statics guarded by the render-frame
      mutex). */
  class Mailbox {
    var valid: bool
    var frame: FrameRequest

    function Contents(): Slot
      reads this
    {
      Slot(valid, frame)
    }

    /** Nothing waiting; the stored frame is the zero-initialised one. */
    constructor ()
      ensures !valid && frame == FrameRequest(0.0, 0.0, 0.0, 0, 0)
    {
      valid := false;
      frame := FrameRequest(0.0, 0.0, 0.0, 0, 0);
    }

    method PostRequest(f: FrameRequest)
      modifies this
      ensures Contents() == Post(old(Contents()), f)
    {
      frame := f;
      valid := true;
    }

    method TakeRequest() returns (r: Option<FrameRequest>)
      modifies this
      ensures (r, Contents()) == Take(old(Contents()))
    {
      if valid {
        valid := false;
        r := Some(frame);
      } else {
        r := None;
      }
    }
  }
}
