/**
 The outbox of NoteSession: a bounded queue in which a newer edit of a pad replaces the queued
 one, and likewise for acknowledgements.
 */
module NoteOutboxes {
  import opened Prelude
  import opened NoteProtocol

  const OUTBOX_MAX_FRAMES: nat := 128
  const OUTBOX_MAX_BYTES: nat := 8 * 1024 * 1024

  /** frames_coalesce */
  predicate Coalesce(queued: NoteFrame, incoming: NoteFrame) {
    && queued.pad == incoming.pad
    && ((queued.IsEdit() && incoming.IsEdit()) || (queued.kind.Ack? && incoming.kind.Ack?))
  }

  datatype Outbox = Outbox(frames: seq<NoteFrame>, bytes: nat, stopped: bool)

  /** The size of a queued frame: some fixed function of the frame. */
  type FrameSize = NoteFrame -> nat

  /** find_if: the first queued frame that coalesces with the incoming one, or the length. */
  function FindQueued(frames: seq<NoteFrame>, frame: NoteFrame): (i: nat)
    ensures i <= |frames|
    ensures i < |frames| ==> Coalesce(frames[i], frame)
    ensures forall j :: 0 <= j < i ==> !Coalesce(frames[j], frame)
  {
    if frames == [] || Coalesce(frames[0], frame) then 0
    else
      var i := FindQueued(frames[1..], frame);
      assert forall j :: 0 < j < 1 + i ==> frames[j] == frames[1..][j - 1];
      1 + i
  }

  function SaturatingSub(a: nat, b: nat): nat {
    if a >= b then a - b else 0
  }

  predicate Overflows(bytes: nat, frameBytes: nat) {
    frameBytes > OUTBOX_MAX_BYTES || bytes > OUTBOX_MAX_BYTES - frameBytes
  }

  /** queue_frame: the outbox afterwards, and whether the frame was accepted. Overflow stops the session. */
  function QueueFrame(size: FrameSize, box: Outbox, frame: NoteFrame): (Outbox, bool) {
    if box.stopped then (box, false)
    else
      var i := FindQueued(box.frames, frame);
      if i < |box.frames| then
        var queued := box.frames[i];
        var remaining := SaturatingSub(box.bytes, size(queued));
        if frame.revision < queued.revision then (box, true)
        else if Overflows(remaining, size(frame)) then (box.(stopped := true), false)
        else (box.(frames := box.frames[i := frame], bytes := remaining + size(frame)), true)
      else if |box.frames| >= OUTBOX_MAX_FRAMES || Overflows(box.bytes, size(frame)) then
        (box.(stopped := true), false)
      else (box.(frames := box.frames + [frame], bytes := box.bytes + size(frame)), true)
  }

  /** The pop of sender_loop. */
  function TakeFrame(size: FrameSize, box: Outbox): (Outbox, NoteFrame)
    requires box.frames != []
  {
    var front := box.frames[0];
    (box.(frames := box.frames[1..], bytes := SaturatingSub(box.bytes, size(front))), front)
  }

  function TotalBytes(size: FrameSize, frames: seq<NoteFrame>): nat {
    if frames == [] then 0 else size(frames[0]) + TotalBytes(size, frames[1..])
  }

  /**
   The byte counter is exact and within the limits, and at most one edit and one acknowledgement
   per pad is waiting.
   */
  ghost predicate Bounded(size: FrameSize, box: Outbox) {
    && box.bytes == TotalBytes(size, box.frames) <= OUTBOX_MAX_BYTES
    && |box.frames| <= OUTBOX_MAX_FRAMES
    && forall i, j :: 0 <= i < j < |box.frames| && box.frames[i].pad == box.frames[j].pad ==>
         && !(box.frames[i].IsEdit() && box.frames[j].IsEdit())
         && !(box.frames[i].kind.Ack? && box.frames[j].kind.Ack?)
  }

  lemma {:induction false} TotalBytesReplace(size: FrameSize, frames: seq<NoteFrame>, i: nat, frame: NoteFrame)
    requires i < |frames|
    ensures TotalBytes(size, frames[i := frame]) + size(frames[i]) == TotalBytes(size, frames) + size(frame)
    ensures size(frames[i]) <= TotalBytes(size, frames)
  {
    if i > 0 {
      assert frames[i := frame][1..] == frames[1..][i - 1 := frame];
      TotalBytesReplace(size, frames[1..], i - 1, frame);
    }
  }

  lemma {:induction false} TotalBytesAppend(size: FrameSize, frames: seq<NoteFrame>, frame: NoteFrame)
    ensures TotalBytes(size, frames + [frame]) == TotalBytes(size, frames) + size(frame)
  {
    if frames != [] {
      assert (frames + [frame])[1..] == frames[1..] + [frame];
      TotalBytesAppend(size, frames[1..], frame);
    } else {
      assert frames + [frame] == [frame];
    }
  }

  /** Every queue and take keeps the bounds; the guarded subtraction is exact. */
  lemma QueueKeepsBounds(size: FrameSize, box: Outbox, frame: NoteFrame)
    requires Bounded(size, box)
    ensures Bounded(size, QueueFrame(size, box, frame).0)
  {
    var i := FindQueued(box.frames, frame);
    if i < |box.frames| {
      TotalBytesReplace(size, box.frames, i, frame);
    } else {
      TotalBytesAppend(size, box.frames, frame);
    }
  }

  lemma TakeKeepsBounds(size: FrameSize, box: Outbox)
    requires Bounded(size, box) && box.frames != []
    ensures Bounded(size, TakeFrame(size, box).0)
    ensures TakeFrame(size, box).0.bytes + size(box.frames[0]) == box.bytes
  {
  }

  /**
   A frame is accepted exactly when a newer one of its kind and pad is already waiting, or the outbox
   with it in place is within both limits. A refusal stops the session and drops nothing.
   */
  lemma AcceptsExactly(size: FrameSize, box: Outbox, frame: NoteFrame)
    requires Bounded(size, box) && (frame.IsEdit() || frame.kind.Ack?)
    ensures var (after, accepted) := QueueFrame(size, box, frame);
      && (accepted <==> !after.stopped)
      && (!accepted ==> after.frames == box.frames && after.bytes == box.bytes)
      && (box.stopped ==> !accepted)
      && (forall j :: 0 <= j < |box.frames| && box.frames[j].pad == frame.pad
                      && box.frames[j].kind.Ack? == frame.kind.Ack? && (box.frames[j].IsEdit() || box.frames[j].kind.Ack?)
                      && !box.stopped ==>
            (accepted <==> frame.revision < box.frames[j].revision
                           || TotalBytes(size, box.frames[j := frame]) <= OUTBOX_MAX_BYTES))
      && ((forall j :: 0 <= j < |box.frames| ==>
             box.frames[j].pad != frame.pad || box.frames[j].kind.Ack? != frame.kind.Ack?) && !box.stopped ==>
            (accepted <==> |box.frames| < OUTBOX_MAX_FRAMES && TotalBytes(size, box.frames + [frame]) <= OUTBOX_MAX_BYTES))
  {
    var i := FindQueued(box.frames, frame);
    if i < |box.frames| {
      TotalBytesReplace(size, box.frames, i, frame);
    }
    TotalBytesAppend(size, box.frames, frame);
  }

  /** The queue as the object holds it. */
  class NoteOutbox {
    const size: FrameSize
    var outgoing: seq<NoteFrame>
    var outgoingBytes: nat
    var stopped: bool

    function View(): Outbox
      reads this
    {
      Outbox(outgoing, outgoingBytes, stopped)
    }

    constructor (size: FrameSize)
      ensures this.size == size && View() == Outbox([], 0, false)
      ensures Bounded(size, View())
    {
      this.size := size;
      outgoing, outgoingBytes, stopped := [], 0, false;
    }

    method Queue(frame: NoteFrame) returns (accepted: bool)
      requires Bounded(size, View())
      modifies this
      ensures (View(), accepted) == QueueFrame(size, old(View()), frame)
      ensures Bounded(size, View())
    {
      QueueKeepsBounds(size, View(), frame);
      if stopped {
        return false;
      }
      var i := 0;
      while i < |outgoing| && !Coalesce(outgoing[i], frame)
        invariant i <= |outgoing|
        invariant forall j :: 0 <= j < i ==> !Coalesce(outgoing[j], frame)
      {
        i := i + 1;
      }
      if i < |outgoing| {
        var queued := outgoing[i];
        if frame.revision < queued.revision {
          return true;
        }
        var remaining := SaturatingSub(outgoingBytes, size(queued));
        if Overflows(remaining, size(frame)) {
          stopped := true;
        } else {
          outgoing, outgoingBytes := outgoing[i := frame], remaining + size(frame);
        }
      } else if |outgoing| >= OUTBOX_MAX_FRAMES || Overflows(outgoingBytes, size(frame)) {
        stopped := true;
      } else {
        outgoing, outgoingBytes := outgoing + [frame], outgoingBytes + size(frame);
      }
      return !stopped;
    }

    method Take() returns (frame: NoteFrame)
      requires Bounded(size, View()) && outgoing != []
      modifies this`outgoing, this`outgoingBytes
      ensures (View(), frame) == TakeFrame(size, old(View()))
      ensures Bounded(size, View())
    {
      TakeKeepsBounds(size, View());
      frame := outgoing[0];
      outgoingBytes := SaturatingSub(outgoingBytes, size(frame));
      outgoing := outgoing[1..];
    }
  }
}
