/** The framer over its two fixed buffers. */
module RtuStream {
  import opened Types
  import opened Framing

  class Stream {
    const currentFrame: array<byte>
    const completedFrame: array<byte>
    var currentLength: nat
    var completedLength: nat
    var lastByteTimestamp: u32
    var intercharTimeout: u32
    var frameGap: u32
    var receiving: bool
    var frameReady: bool

    ghost predicate Valid()
      reads this
    {
      && currentFrame.Length == completedFrame.Length == MAX_ADU_SIZE && currentFrame != completedFrame
      && currentLength <= MAX_ADU_SIZE && completedLength <= MAX_ADU_SIZE
    }

    ghost function View(): State
      requires Valid()
      reads this, currentFrame, completedFrame
    {
      State(currentFrame[..currentLength], completedFrame[..completedLength], lastByteTimestamp, intercharTimeout, frameGap,
            receiving, frameReady)
    }

    constructor ()
      ensures Valid() && fresh(currentFrame) && fresh(completedFrame)
    {
      currentFrame := new byte[MAX_ADU_SIZE];
      completedFrame := new byte[MAX_ADU_SIZE];
      currentLength, completedLength, lastByteTimestamp, intercharTimeout, frameGap := 0, 0, 0, 0, 0;
      receiving, frameReady := false, false;
    }

    method Init(interchar: u32, gap: u32) returns (status: Status)
      requires Valid()
      modifies this
      ensures Valid()
      ensures if interchar == 0 || gap <= interchar then status == InvalidArgument && View() == old(View())
              else status == NoFrame && View() == Initial(interchar, gap) && IsState(View())
    {
      if interchar == 0 || gap <= interchar { return InvalidArgument; }
      intercharTimeout, frameGap, lastByteTimestamp, currentLength, completedLength := interchar, gap, 0, 0, 0;
      receiving, frameReady := false, false;
      return NoFrame;
    }

    method Reset()
      requires Valid()
      modifies this
      ensures Valid() && View() == Initial(old(intercharTimeout), old(frameGap))
    {
      lastByteTimestamp, currentLength, completedLength := 0, 0, 0;
      receiving, frameReady := false, false;
    }

    method StartFrame(b: byte, now: u32)
      requires Valid()
      modifies this`currentLength, this`lastByteTimestamp, this`receiving, currentFrame
      ensures Valid() && View() == Framing.StartFrame(old(View()), b, now)
    {
      currentFrame[0] := b;
      currentLength := 1;
      lastByteTimestamp := now;
      receiving := true;
    }

    method CompleteCurrent()
      requires Valid()
      modifies this`completedLength, this`frameReady, this`currentLength, this`receiving, completedFrame
      ensures Valid() && View() == Framing.CompleteCurrent(old(View()))
    {
      var index := 0;
      while index < currentLength
        invariant 0 <= index <= currentLength
        invariant completedFrame[..index] == currentFrame[..index]
        modifies completedFrame
      {
        completedFrame[index] := currentFrame[index];
        index := index + 1;
      }
      completedLength := currentLength;
      frameReady := true;
      currentLength := 0;
      receiving := false;
    }

    method Feed(b: byte, now: u32) returns (status: Status)
      requires Valid() && IsState(View())
      modifies this, currentFrame, completedFrame
      ensures Valid() && (View(), status) == Framing.Feed(old(View()), b, now)
    {
      if frameReady { return Busy; }
      if !receiving {
        StartFrame(b, now);
        return NoFrame;
      }
      var elapsed := Elapsed(now, lastByteTimestamp);
      if elapsed >= frameGap {
        CompleteCurrent();
        StartFrame(b, now);
        return FrameReady;
      }
      if elapsed > intercharTimeout {
        StartFrame(b, now);
        return IntercharTimeout;
      }
      if currentLength >= MAX_ADU_SIZE {
        currentLength := 0;
        receiving := false;
        return Overflow;
      }
      currentFrame[currentLength] := b;
      currentLength := currentLength + 1;
      assert currentFrame[..currentLength] == old(currentFrame[..currentLength]) + [b];
      lastByteTimestamp := now;
      return NoFrame;
    }

    method Poll(now: u32) returns (status: Status)
      requires Valid() && IsState(View())
      modifies this, completedFrame
      ensures Valid() && (View(), status) == Framing.Poll(old(View()), now)
    {
      if frameReady { return FrameReady; }
      if !receiving { return NoFrame; }
      if Elapsed(now, lastByteTimestamp) >= frameGap {
        CompleteCurrent();
        return FrameReady;
      }
      return NoFrame;
    }

    method TakeFrame(output: array<byte>) returns (status: Status, length: nat)
      requires Valid() && output != currentFrame && output != completedFrame
      modifies this`completedLength, this`frameReady, output
      ensures Valid()
      ensures if !old(frameReady) then status == NoFrame && View() == old(View())
              else if output.Length < |old(View()).completed| then status == OutputTooSmall && View() == old(View())
              else && status == FrameReady && View() == Take(old(View())).0
                   && length <= output.Length && output[..length] == Take(old(View())).1
    {
      length := 0;
      if !frameReady { return NoFrame, length; }
      if output.Length < completedLength { return OutputTooSmall, length; }
      var index := 0;
      while index < completedLength
        invariant 0 <= index <= completedLength
        invariant output[..index] == completedFrame[..index]
        modifies output
      {
        output[index] := completedFrame[index];
        index := index + 1;
      }
      length := completedLength;
      completedLength := 0;
      frameReady := false;
      return FrameReady, length;
    }
  }
}
