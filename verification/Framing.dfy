/** The framer: bytes with free-running 32-bit timestamps become frames by the silence between them. */
module Framing {
  import opened Types

  const MAX_ADU_SIZE: nat := 256
  const WRAP: nat := 0x1_0000_0000

  datatype Status = NoFrame | FrameReady | InvalidArgument | IntercharTimeout | Overflow | Busy | OutputTooSmall

  /** The framer's variables; `current` and `completed` are the used parts of its two buffers. */
  datatype State = State(
    current: seq<byte>, completed: seq<byte>, last: u32, interchar: u32, gap: u32, receiving: bool, ready: bool)

  predicate IsState(s: State) {
    && |s.current| <= MAX_ADU_SIZE && |s.completed| <= MAX_ADU_SIZE
    && 0 < s.interchar < s.gap
  }

  function Initial(interchar: u32, gap: u32): State {
    State([], [], 0, interchar, gap, false, false)
  }

  /** Unsigned subtraction of timestamps. */
  function Elapsed(now: u32, last: u32): u32 { (now - last) % WRAP }

  function StartFrame(s: State, b: byte, now: u32): State {
    s.(current := [b], last := now, receiving := true)
  }

  function CompleteCurrent(s: State): State {
    s.(completed := s.current, ready := true, current := [], receiving := false)
  }

  function Feed(s: State, b: byte, now: u32): (r: (State, Status))
    requires IsState(s)
    ensures IsState(r.0)
  {
    if s.ready then (s, Busy)
    else if !s.receiving then (StartFrame(s, b, now), NoFrame)
    else if Elapsed(now, s.last) >= s.gap then (StartFrame(CompleteCurrent(s), b, now), FrameReady)
    else if Elapsed(now, s.last) > s.interchar then (StartFrame(s, b, now), IntercharTimeout)
    else if |s.current| >= MAX_ADU_SIZE then (s.(current := [], receiving := false), Overflow)
    else (s.(current := s.current + [b], last := now), NoFrame)
  }

  function Poll(s: State, now: u32): (r: (State, Status))
    requires IsState(s)
    ensures IsState(r.0)
  {
    if s.ready then (s, FrameReady)
    else if !s.receiving then (s, NoFrame)
    else if Elapsed(now, s.last) >= s.gap then (CompleteCurrent(s), FrameReady)
    else (s, NoFrame)
  }

  function Take(s: State): (State, seq<byte>) {
    (s.(completed := [], ready := false), s.completed)
  }

  // ---- Driving the framer ----

  /** A received byte, or a poll of the main loop, at its absolute time in microseconds. */
  datatype Input = Byte(b: byte, at: nat) | PollAt(at: nat)

  /** One byte as the receive loop feeds it: a frame that gets ready is taken, an overrun restarts the framer. */
  function FeedAndTake(s: State, b: byte, stamp: u32): (r: (State, Option<seq<byte>>))
    requires IsState(s)
    ensures IsState(r.0)
  {
    var (s', status) := Feed(s, b, stamp);
    if status == FrameReady then (Take(s').0, Some(Take(s').1))
    else if status == Overflow then (Initial(s.interchar, s.gap), None)
    else (s', None)
  }

  function PollAndTake(s: State, now: u32): (r: (State, Option<seq<byte>>))
    requires IsState(s)
    ensures IsState(r.0)
  {
    var (s', status) := Poll(s, now);
    if status == FrameReady then (Take(s').0, Some(Take(s').1)) else (s', None)
  }

  function Handle(s: State, input: Input): (r: (State, Option<seq<byte>>))
    requires IsState(s)
    ensures IsState(r.0)
  {
    match input
    case Byte(b, at) => FeedAndTake(s, b, at % WRAP)
    case PollAt(at) => PollAndTake(s, at % WRAP)
  }

  function Run(s: State, inputs: seq<Input>): (r: (State, seq<seq<byte>>))
    requires IsState(s)
    ensures IsState(r.0)
    decreases |inputs|
  {
    if inputs == [] then (s, [])
    else
      var (s1, frame) := Handle(s, inputs[0]);
      var (s2, frames) := Run(s1, inputs[1..]);
      (s2, (if frame.Some? then [frame.value] else []) + frames)
  }

  /** The frames so far: those taken, and the one that still waits for its closing silence. */
  function Delivered(s: State, frames: seq<seq<byte>>): seq<seq<byte>> {
    frames + if s.receiving then [s.current] else []
  }

  // ---- What is on the line ----

  datatype Timed = Timed(b: byte, at: nat)

  function Payload(frame: seq<Timed>): seq<byte> {
    seq(|frame|, (i: nat) requires i < |frame| => frame[i].b)
  }

  function Payloads(frames: seq<seq<Timed>>): seq<seq<byte>> {
    if frames == [] then [] else [Payload(frames[0])] + Payloads(frames[1..])
  }

  function Line(frames: seq<seq<Timed>>): seq<Timed> {
    if frames == [] then [] else frames[0] + Line(frames[1..])
  }

  /** The bytes among the inputs. */
  function BytesOf(inputs: seq<Input>): seq<Timed> {
    if inputs == [] then []
    else (if inputs[0].Byte? then [Timed(inputs[0].b, inputs[0].at)] else []) + BytesOf(inputs[1..])
  }

  /** Bytes that follow each other within the interchar time. */
  predicate InFrame(last: nat, rest: seq<Timed>, interchar: nat)
    decreases |rest|
  {
    rest == [] || (last <= rest[0].at <= last + interchar && InFrame(rest[0].at, rest[1..], interchar))
  }

  function EndTime(last: nat, rest: seq<Timed>): nat
    decreases |rest|
  {
    if rest == [] then last else EndTime(rest[0].at, rest[1..])
  }

  predicate IsFrame(frame: seq<Timed>, interchar: nat) {
    1 <= |frame| <= MAX_ADU_SIZE && InFrame(frame[0].at, frame[1..], interchar)
  }

  /** Frames, each after at least the frame gap since the end of the one before. */
  predicate Spaced(end: nat, frames: seq<seq<Timed>>, interchar: nat, gap: nat)
    decreases |frames|
  {
    frames == [] ||
    (IsFrame(frames[0], interchar) && frames[0][0].at >= end + gap &&
     Spaced(EndTime(frames[0][0].at, frames[0][1..]), frames[1..], interchar, gap))
  }

  /** A transmission: any first time, then frames that keep the two silences of the standard. */
  predicate WellSpaced(frames: seq<seq<Timed>>, interchar: nat, gap: nat) {
    frames == [] ||
    (IsFrame(frames[0], interchar) && Spaced(EndTime(frames[0][0].at, frames[0][1..]), frames[1..], interchar, gap))
  }

  /** The last byte of a frame that no poll has closed yet. */
  function OpenAfter(open: Option<nat>, input: Input, gap: nat): Option<nat> {
    if input.Byte? then Some(input.at)
    else if open.Some? && input.at >= open.value + gap then None
    else open
  }

  /** Inputs in the order of time, none a whole counter period after the last byte of a frame still open. */
  predicate Ordered(open: Option<nat>, now: nat, inputs: seq<Input>, gap: nat)
    decreases |inputs|
  {
    inputs == [] ||
    (inputs[0].at >= now && (open.Some? ==> inputs[0].at < open.value + WRAP) &&
     Ordered(OpenAfter(open, inputs[0], gap), inputs[0].at, inputs[1..], gap))
  }

  /**
   * Bytes in the order of time, and polls that may be later than bytes still waiting to be fed:
   * one that finds no frame open, or finds it before its gap is over, does nothing; one that closes
   * a frame must only not come before a byte of that frame.
   */
  predicate Timely(open: Option<nat>, now: nat, inputs: seq<Input>, gap: nat)
    decreases |inputs|
  {
    inputs == [] ||
    match inputs[0]
    case Byte(_, at) =>
      at >= now && (open.Some? ==> at < open.value + WRAP) && Timely(Some(at), at, inputs[1..], gap)
    case PollAt(at) =>
      if open.None? then Timely(None, now, inputs[1..], gap)
      else
        open.value <= at < open.value + WRAP &&
        if at < open.value + gap then Timely(open, now, inputs[1..], gap)
        else Timely(None, open.value + gap, inputs[1..], gap)
  }

  // ---- Exactness ----

  lemma WrapDifference(a: nat, b: nat)
    requires a <= b < a + WRAP
    ensures Elapsed(b % WRAP, a % WRAP) == b - a
  {
  }

  lemma NothingLeft(rest: seq<Timed>, more: seq<seq<Timed>>, end: nat, interchar: nat, gap: nat)
    requires rest + Line(more) == [] && Spaced(end, more, interchar, gap)
    ensures rest == [] && more == []
  {
    LineCovers(more);
  }

  lemma LineCovers(more: seq<seq<Timed>>)
    ensures more != [] ==> |Line(more)| >= |more[0]|
  {
  }

  /** The next byte to come is not earlier than now. */
  lemma {:induction false} FirstByteIsLater(inputs: seq<Input>, open: Option<nat>, now: nat, gap: nat,
                                            first: Timed, others: seq<Timed>)
    requires Ordered(open, now, inputs, gap) && BytesOf(inputs) == [first] + others
    ensures first.at >= now
    decreases |inputs|
  {
    assert inputs != [];
    if inputs[0].Byte? {
      assert BytesOf(inputs)[0] == first;
    } else {
      FirstByteIsLater(inputs[1..], OpenAfter(open, inputs[0], gap), inputs[0].at, gap, first, others);
    }
  }

  lemma DeliveredAfter(frame: seq<byte>, s: State, frames: seq<seq<byte>>)
    ensures Delivered(s, [frame] + frames) == [frame] + Delivered(s, frames)
  {
  }

  lemma SpacedIsWellSpaced(end: nat, frames: seq<seq<Timed>>, interchar: nat, gap: nat)
    requires Spaced(end, frames, interchar, gap)
    ensures WellSpaced(frames, interchar, gap)
  {
  }

  lemma IdleStep(s: State, input: Input)
    requires IsState(s) && !s.ready && !s.receiving
    ensures Handle(s, input) == (if input.Byte? then StartFrame(s, input.b, input.at % WRAP) else s, None)
  {
  }

  /** Outside a frame the next byte starts the next one. */
  lemma {:induction false} FromOutside(s: State, now: nat, more: seq<seq<Timed>>, inputs: seq<Input>)
    requires IsState(s) && !s.ready && !s.receiving && WellSpaced(more, s.interchar, s.gap)
    requires Ordered(None, now, inputs, s.gap) && BytesOf(inputs) == Line(more)
    ensures var (s', frames) := Run(s, inputs); Delivered(s', frames) == Payloads(more)
    decreases |inputs|, 1
  {
    LineCovers(more);
    if inputs != [] {
      IdleStep(s, inputs[0]);
      hide Handle;
      var s1 := Handle(s, inputs[0]).0;
      match inputs[0] {
        case PollAt(at) => FromOutside(s, at, more, inputs[1..]);
        case Byte(b, at) =>
          if more != [] {
            FramesAreNonempty(EndTime(more[0][0].at, more[0][1..]), more[1..], s.interchar, s.gap);
          }
          FirstOfLine(more, BytesOf(inputs[1..]), Timed(b, at));
          FromInside(s1, at, at, more[0][1..], more[1..], inputs[1..]);
          assert [b] + Payload(more[0][1..]) == Payload(more[0]);
      }
    }
  }

  lemma FirstOfLine(more: seq<seq<Timed>>, others: seq<Timed>, first: Timed)
    requires Line(more) == [first] + others && forall i | 0 <= i < |more| :: more[i] != []
    ensures more != [] && more[0][0] == first && others == more[0][1..] + Line(more[1..])
  {
    assert more != [];
    assert Line(more)[0] == first;
    assert others == Line(more)[1..];
    assert Line(more)[1..] == more[0][1..] + Line(more[1..]);
  }

  lemma {:induction false} FramesAreNonempty(end: nat, frames: seq<seq<Timed>>, interchar: nat, gap: nat)
    requires Spaced(end, frames, interchar, gap)
    ensures forall i | 0 <= i < |frames| :: frames[i] != []
    decreases |frames|
  {
    if frames != [] {
      FramesAreNonempty(EndTime(frames[0][0].at, frames[0][1..]), frames[1..], interchar, gap);
    }
  }

  /** After the last byte of a frame and its silence, the first byte of the next closes it. */
  lemma {:induction false} NextFrame(s: State, last: nat, now: nat, more: seq<seq<Timed>>, inputs: seq<Input>)
    requires IsState(s) && !s.ready && s.receiving && s.current != [] && s.last == last % WRAP && last <= now
    requires Spaced(last, more, s.interchar, s.gap)
    requires inputs != [] && inputs[0].Byte? && Ordered(Some(last), now, inputs, s.gap) && BytesOf(inputs) == Line(more)
    ensures var (s', frames) := Run(s, inputs);
            Delivered(s', frames) == [s.current] + Payloads(more)
    decreases |inputs|, 0
  {
    var b, at := inputs[0].b, inputs[0].at;
    FramesAreNonempty(last, more, s.interchar, s.gap);
    FirstOfLine(more, BytesOf(inputs[1..]), Timed(b, at));
    WrapDifference(last, at);
    var (s1, frame) := Handle(s, inputs[0]);
    assert frame == Some(s.current) && s1.current == [b];
    FromInside(s1, at, at, more[0][1..], more[1..], inputs[1..]);
    assert [b] + Payload(more[0][1..]) == Payload(more[0]);
    var (s2, frames) := Run(s1, inputs[1..]);
    DeliveredAfter(s.current, s2, frames);
  }

  /** A silence of a frame gap means that no byte of the frame is still to come. */
  lemma SilenceEndsFrame(last: nat, at: nat, rest: seq<Timed>, others: seq<Timed>, inputs: seq<Input>,
                         interchar: nat, gap: nat)
    requires InFrame(last, rest, interchar) && at > last + interchar
    requires Ordered(None, at, inputs, gap) && BytesOf(inputs) == rest + others
    ensures rest == []
  {
    if rest != [] {
      assert rest + others == [rest[0]] + (rest[1..] + others);
      FirstByteIsLater(inputs, None, at, gap, rest[0], rest[1..] + others);
    }
  }

  /** A poll after the silence closes the frame. */
  lemma {:induction false} ClosedByPoll(s: State, last: nat, now: nat, more: seq<seq<Timed>>, inputs: seq<Input>)
    requires IsState(s) && !s.ready && s.receiving && s.current != [] && s.last == last % WRAP && last <= now
    requires Spaced(last, more, s.interchar, s.gap)
    requires inputs != [] && inputs[0].PollAt? && inputs[0].at >= last + s.gap
    requires Ordered(Some(last), now, inputs, s.gap) && BytesOf(inputs) == Line(more)
    ensures var (s', frames) := Run(s, inputs);
            Delivered(s', frames) == [s.current] + Payloads(more)
    decreases |inputs|, 0
  {
    WrapDifference(last, inputs[0].at);
    var s1 := Handle(s, inputs[0]).0;
    SpacedIsWellSpaced(last, more, s.interchar, s.gap);
    FromOutside(s1, inputs[0].at, more, inputs[1..]);
    var (s2, frames) := Run(s1, inputs[1..]);
    DeliveredAfter(s.current, s2, frames);
  }

  lemma ByteJoins(s: State, last: nat, b: byte, at: nat)
    requires IsState(s) && !s.ready && s.receiving && s.last == last % WRAP && |s.current| < MAX_ADU_SIZE
    requires last <= at <= last + s.interchar && at < last + WRAP
    ensures Handle(s, Byte(b, at)) == (s.(current := s.current + [b], last := at % WRAP), None)
  {
    WrapDifference(last, at);
  }

  /** The next byte of a frame joins the ones before. */
  lemma {:induction false} NextByte(s: State, last: nat, now: nat, rest: seq<Timed>, more: seq<seq<Timed>>, inputs: seq<Input>)
    requires IsState(s) && !s.ready && s.receiving && s.current != [] && s.last == last % WRAP && last <= now
    requires |s.current| + |rest| <= MAX_ADU_SIZE && InFrame(last, rest, s.interchar) && rest != []
    requires Spaced(EndTime(last, rest), more, s.interchar, s.gap)
    requires inputs != [] && inputs[0].Byte? && Ordered(Some(last), now, inputs, s.gap) && BytesOf(inputs) == rest + Line(more)
    ensures var (s', frames) := Run(s, inputs);
            Delivered(s', frames) == [s.current + Payload(rest)] + Payloads(more)
    decreases |inputs|, 0
  {
    var b, at := inputs[0].b, inputs[0].at;
    assert BytesOf(inputs)[0] == rest[0];
    assert BytesOf(inputs)[1..] == rest[1..] + Line(more);
    ByteJoins(s, last, b, at);
    hide Handle, Spaced, Line;
    var s1 := Handle(s, inputs[0]).0;
    FromInside(s1, at, at, rest[1..], more, inputs[1..]);
    assert s.current + [b] + Payload(rest[1..]) == s.current + Payload(rest);
  }

  /**
   * From the middle of a frame: what was fed of it is in the buffer, the rest is still to come,
   * then the other frames.
   */
  lemma {:induction false} FromInside(s: State, last: nat, now: nat, rest: seq<Timed>, more: seq<seq<Timed>>, inputs: seq<Input>)
    requires IsState(s) && !s.ready && s.receiving && s.current != [] && s.last == last % WRAP && last <= now
    requires |s.current| + |rest| <= MAX_ADU_SIZE && InFrame(last, rest, s.interchar)
    requires Spaced(EndTime(last, rest), more, s.interchar, s.gap)
    requires Ordered(Some(last), now, inputs, s.gap) && BytesOf(inputs) == rest + Line(more)
    ensures var (s', frames) := Run(s, inputs);
            Delivered(s', frames) == [s.current + Payload(rest)] + Payloads(more)
    decreases |inputs|, 1
  {
    if rest == [] {
      assert rest + Line(more) == Line(more);
      assert s.current + Payload(rest) == s.current;
    }
    if inputs == [] {
      NothingLeft(rest, more, EndTime(last, rest), s.interchar, s.gap);
      assert s.current + Payload(rest) == s.current;
    } else if inputs[0].Byte? {
      if rest == [] {
        NextFrame(s, last, now, more, inputs);
      } else {
        NextByte(s, last, now, rest, more, inputs);
      }
    } else if inputs[0].at >= last + s.gap {
      SilenceEndsFrame(last, inputs[0].at, rest, Line(more), inputs[1..], s.interchar, s.gap);
      assert rest + Line(more) == Line(more);
      assert s.current + Payload(rest) == s.current;
      ClosedByPoll(s, last, now, more, inputs);
    } else {
      WrapDifference(last, inputs[0].at);
      FromInside(s, last, inputs[0].at, rest, more, inputs[1..]);
    }
  }

  lemma OrderedFramingIsExact(interchar: u32, gap: u32, sent: seq<seq<Timed>>, inputs: seq<Input>)
    requires 0 < interchar < gap
    requires WellSpaced(sent, interchar, gap)
    requires Ordered(None, 0, inputs, gap) && BytesOf(inputs) == Line(sent)
    ensures var (s, frames) := Run(Initial(interchar, gap), inputs);
            Delivered(s, frames) == Payloads(sent)
  {
    FromOutside(Initial(interchar, gap), 0, sent, inputs);
  }

  /** The inputs without the polls that do nothing, and each closing poll at the moment the gap is over. */
  function Prune(open: Option<nat>, inputs: seq<Input>, gap: nat): seq<Input>
    decreases |inputs|
  {
    if inputs == [] then []
    else if inputs[0].Byte? then [inputs[0]] + Prune(Some(inputs[0].at), inputs[1..], gap)
    else if open.Some? && inputs[0].at >= open.value + gap
    then [PollAt(open.value + gap)] + Prune(None, inputs[1..], gap)
    else Prune(open, inputs[1..], gap)
  }

  /** The framer's stamp is that of the frame still open, if it is receiving at all. */
  predicate Stands(s: State, open: Option<nat>) {
    IsState(s) && !s.ready && (s.receiving ==> open.Some? && s.last == open.value % WRAP)
  }

  lemma OneInput(s: State, open: Option<nat>, input: Input)
    requires Stands(s, open)
    requires input.PollAt? && open.Some? ==> open.value <= input.at < open.value + WRAP
    ensures var (s', frame) := Handle(s, input);
            && Stands(s', OpenAfter(open, input, s.gap)) && s'.gap == s.gap
            && (input.PollAt? && open.Some? && input.at >= open.value + s.gap ==>
                  Handle(s, PollAt(open.value + s.gap)) == Handle(s, input))
            && (input.PollAt? && (open.Some? ==> input.at < open.value + s.gap) ==> (s', frame) == (s, None))
  {
    if input.PollAt? && open.Some? {
      WrapDifference(open.value, input.at);
      WrapDifference(open.value, open.value + s.gap);
    }
  }

  /** Timely inputs do what their pruned ones do, and those are in the order of time. */
  lemma {:induction false} PrunedIsOrdered(s: State, open: Option<nat>, now: nat, inputs: seq<Input>)
    requires Stands(s, open) && (open.Some? ==> now == open.value) && Timely(open, now, inputs, s.gap)
    ensures var pruned := Prune(open, inputs, s.gap);
            Run(s, pruned) == Run(s, inputs) && BytesOf(pruned) == BytesOf(inputs) && Ordered(open, now, pruned, s.gap)
    decreases |inputs|
  {
    hide Handle, Stands;
    if inputs != [] {
      assert IsState(s) by { StandsIsState(s, open); }
      var input, rest := inputs[0], inputs[1..];
      OneInput(s, open, input);
      var s1 := Handle(s, input).0;
      if input.Byte? {
        PrunedIsOrdered(s1, Some(input.at), input.at, rest);
        assert Prune(open, inputs, s.gap)[1..] == Prune(Some(input.at), rest, s.gap);
      } else if open.Some? && input.at >= open.value + s.gap {
        PrunedIsOrdered(s1, None, open.value + s.gap, rest);
        assert Prune(open, inputs, s.gap)[1..] == Prune(None, rest, s.gap);
      } else {
        assert [] + Run(s, rest).1 == Run(s, rest).1 && [] + BytesOf(rest) == BytesOf(rest);
        PrunedIsOrdered(s, open, now, rest);
      }
    }
  }

  lemma StandsIsState(s: State, open: Option<nat>)
    requires Stands(s, open)
    ensures IsState(s)
  {
  }

  /**
   * Framing is exact: frames of 1 to 256 bytes that keep both silences come out as sent, in
   * order, whatever the start of the wrapping counter and wherever polls fall in between, as long
   * as no poll closes a frame with bytes of it still to be fed.
   */
  lemma FramingIsExact(interchar: u32, gap: u32, sent: seq<seq<Timed>>, inputs: seq<Input>)
    requires 0 < interchar < gap
    requires WellSpaced(sent, interchar, gap)
    requires Timely(None, 0, inputs, gap) && BytesOf(inputs) == Line(sent)
    ensures var (s, frames) := Run(Initial(interchar, gap), inputs);
            Delivered(s, frames) == Payloads(sent)
  {
    PrunedIsOrdered(Initial(interchar, gap), None, 0, inputs);
    OrderedFramingIsExact(interchar, gap, sent, Prune(None, inputs, gap));
    hide Run, Prune;
  }

  /** A poll that does close a frame with bytes of it still to be fed splits it. */
  lemma LatePollSplitsFrame(s: State, last: nat, at: nat, rest: seq<Timed>, more: seq<seq<Timed>>, later: seq<Input>)
    requires IsState(s) && !s.ready && s.receiving && s.last == last % WRAP && rest != []
    requires last + s.gap <= at < last + WRAP
    ensures var (s', frames) := Run(s, [PollAt(at)] + later);
            Delivered(s', frames) != [s.current + Payload(rest)] + Payloads(more)
  {
    WrapDifference(last, at);
    var inputs := [PollAt(at)] + later;
    assert inputs[1..] == later;
    var (s', frames) := Run(s, inputs);
    assert Delivered(s', frames)[0] == s.current;
    assert |s.current + Payload(rest)| > |s.current|;
  }

  /** The last byte of the frame that is still open after the inputs. */
  function OpenAtEnd(open: Option<nat>, inputs: seq<Input>, gap: nat): Option<nat>
    decreases |inputs|
  {
    if inputs == [] then open else OpenAtEnd(OpenAfter(open, inputs[0], gap), inputs[1..], gap)
  }

  lemma {:induction false} RunStands(s: State, open: Option<nat>, now: nat, inputs: seq<Input>)
    requires Stands(s, open) && Timely(open, now, inputs, s.gap)
    ensures Stands(Run(s, inputs).0, OpenAtEnd(open, inputs, s.gap)) && Run(s, inputs).0.gap == s.gap
    decreases |inputs|
  {
    if inputs != [] {
      var input := inputs[0];
      OneInput(s, open, input);
      var open' := OpenAfter(open, input, s.gap);
      var now' := if input.Byte? then input.at else if open.Some? && open'.None? then open.value + s.gap else now;
      hide Handle, Stands;
      RunStands(Handle(s, input).0, open', now', inputs[1..]);
    }
  }

  lemma {:induction false} RunThenOne(s: State, inputs: seq<Input>, input: Input)
    requires IsState(s)
    ensures var (s1, frames) := Run(s, inputs);
            var (s2, frame) := Handle(s1, input);
            Run(s, inputs + [input]) == (s2, frames + if frame.Some? then [frame.value] else [])
    decreases |inputs|
  {
    hide Handle;
    if inputs == [] {
      assert inputs + [input] == [input];
      assert [input][1..] == [];
      var (next, frame) := Handle(s, input);
      var tail := if frame.Some? then [frame.value] else [];
      assert Run(next, [input][1..]) == (next, []);
      assert Run(s, [input]) == (next, tail + []);
      assert tail + [] == tail == [] + tail;
    } else {
      assert (inputs + [input])[1..] == inputs[1..] + [input];
      var (next, frame) := Handle(s, inputs[0]);
      RunThenOne(next, inputs[1..], input);
      var first := if frame.Some? then [frame.value] else [];
      var (s1, frames) := Run(next, inputs[1..]);
      var (s2, last) := Handle(s1, input);
      var tail := if last.Some? then [last.value] else [];
      assert first + (frames + tail) == first + frames + tail;
    }
  }

  /** With a poll after the closing silence, exactly the frames that were sent have been taken. */
  lemma SilenceDeliversAll(interchar: u32, gap: u32, sent: seq<seq<Timed>>, inputs: seq<Input>, poll: nat)
    requires 0 < interchar < gap
    requires WellSpaced(sent, interchar, gap)
    requires Timely(None, 0, inputs, gap) && BytesOf(inputs) == Line(sent)
    requires var open := OpenAtEnd(None, inputs, gap); open.Some? ==> open.value + gap <= poll < open.value + WRAP
    ensures Run(Initial(interchar, gap), inputs + [PollAt(poll)]).1 == Payloads(sent)
  {
    var s := Initial(interchar, gap);
    FramingIsExact(interchar, gap, sent, inputs);
    RunStands(s, None, 0, inputs);
    RunThenOne(s, inputs, PollAt(poll));
    var s1 := Run(s, inputs).0;
    if s1.receiving {
      WrapDifference(OpenAtEnd(None, inputs, gap).value, poll);
    }
    hide Run;
  }
}
