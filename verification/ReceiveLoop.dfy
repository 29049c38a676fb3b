/** The receive routine called again and again: what the interrupts accepted comes out as the frames that were sent. */
module ReceiveLoop {
  import opened Types
  import opened Framing
  import opened UartTransport

  /** One call of the receive routine: the items it popped and the time at which it polled. */
  datatype Call = Call(items: seq<Item>, now: nat)

  /** What the calls leave in the framer, and the frames they hand over. */
  function Calls(s: State, calls: seq<Call>): (r: (State, seq<seq<byte>>))
    requires IsState(s)
    ensures IsState(r.0)
    decreases |calls|
  {
    if calls == [] then (s, [])
    else
      var (s1, frame) := ReceivedBy(s, calls[0].items, calls[0].now % WRAP);
      var (s2, frames) := Calls(s1, calls[1..]);
      (s2, Taken(frame) + frames)
  }

  function Taken(frame: Option<seq<byte>>): seq<seq<byte>> { if frame.Some? then [frame.value] else [] }

  function ItemsOf(calls: seq<Call>): seq<Item> {
    if calls == [] then [] else calls[0].items + ItemsOf(calls[1..])
  }

  /** Every call stops popping at the first frame. */
  predicate StopInTime(s: State, calls: seq<Call>)
    requires IsState(s)
    decreases |calls|
  {
    calls == [] ||
    (StopsAtFrame(s, calls[0].items) && StopInTime(ReceivedBy(s, calls[0].items, calls[0].now % WRAP).0, calls[1..]))
  }

  // ---- The main loop ----

  /** A transport in service, and a buffer for a whole frame beside its own. */
  ghost predicate Ready(transport: Transport, frame: array<byte>)
    reads transport, transport.ring, transport.ring.slots, transport.stream, transport.stream.currentFrame,
          transport.stream.completedFrame
  {
    && transport.Valid() && transport.initialized && !transport.stream.frameReady && frame.Length >= MAX_ADU_SIZE
    && frame != transport.stream.currentFrame && frame != transport.stream.completedFrame
    && (transport.ring.slots as object) != frame
  }

  /** The calls popped what the ring accepted from the first item on, and made these frames and this state. */
  predicate Drained(start: State, calls: seq<Call>, frames: seq<seq<byte>>, items: seq<Item>, end: State)
    requires IsState(start)
  {
    ItemsOf(calls) == items && StopInTime(start, calls) && Calls(start, calls) == (end, frames)
  }

  method ReceiveNext(transport: Transport, frame: array<byte>, now: nat, frames: seq<seq<byte>>,
                     ghost start: State, ghost first: nat, ghost calls: seq<Call>)
    returns (frames': seq<seq<byte>>, ghost calls': seq<Call>)
    requires Ready(transport, frame) && first <= transport.ring.popped && IsState(start)
    requires Drained(start, calls, frames, transport.ring.accepted[first..transport.ring.popped], transport.stream.View())
    modifies transport, transport.ring, transport.ring.slots, transport.stream, transport.stream.currentFrame,
             transport.stream.completedFrame, frame
    ensures Ready(transport, frame) && first <= transport.ring.popped && transport.lost == old(transport.lost)
    ensures |calls'| == |calls| + 1 && calls'[..|calls|] == calls && calls'[|calls|].now == now
    ensures Drained(start, calls', frames', transport.ring.accepted[first..transport.ring.popped], transport.stream.View())
  {
    hide StopsAtFrame, ReceivedBy, Calls, StopInTime, ItemsOf;
    ghost var popped, earlier := transport.ring.popped, transport.ring.accepted;
    ghost var before := transport.stream.View();
    var ok, length := transport.Receive(frame, now % WRAP);
    assert transport.ring.accepted[first..popped] == earlier[first..popped];
    ghost var call := Call(transport.ring.accepted[popped..transport.ring.popped], now);
    OneMoreCall(start, calls, call);
    assert transport.ring.accepted[first..transport.ring.popped] == earlier[first..popped] + call.items;
    calls' := calls + [call];
    frames' := if ok then frames + [frame[..length]] else frames;
    assert frames' == frames + Taken(if ok then Some(frame[..length]) else None);
  }

  /** The main loop polls the transport at these times, with a buffer for a whole frame. */
  method ReceiveAll(transport: Transport, frame: array<byte>, times: seq<nat>)
    returns (frames: seq<seq<byte>>, ghost calls: seq<Call>)
    requires Ready(transport, frame)
    modifies transport, transport.ring, transport.ring.slots, transport.stream, transport.stream.currentFrame,
             transport.stream.completedFrame, frame
    ensures Ready(transport, frame) && transport.lost == old(transport.lost)
    ensures |calls| == |times| && forall i | 0 <= i < |times| :: calls[i].now == times[i]
    ensures old(transport.ring.popped) <= transport.ring.popped
    ensures Drained(old(transport.stream.View()), calls, frames,
                    transport.ring.accepted[old(transport.ring.popped)..transport.ring.popped], transport.stream.View())
  {
    frames, calls := [], [];
    ghost var start, first := transport.stream.View(), transport.ring.popped;
    assert transport.ring.accepted[first..first] == [];
    assert Drained(start, [], [], [], start);
    hide Drained;
    var i := 0;
    while i < |times|
      invariant 0 <= i <= |times| && Ready(transport, frame)
      invariant transport.lost == old(transport.lost) && first <= transport.ring.popped
      invariant |calls| == i && forall k | 0 <= k < i :: calls[k].now == times[k]
      invariant Drained(start, calls, frames, transport.ring.accepted[first..transport.ring.popped], transport.stream.View())
    {
      ghost var earlier := calls;
      frames, calls := ReceiveNext(transport, frame, times[i], frames, start, first, calls);
      assert forall k | 0 <= k < i :: calls[k] == calls[..|earlier|][k] == earlier[k];
      i := i + 1;
    }
  }

  lemma {:induction false} OneMoreCall(s: State, calls: seq<Call>, call: Call)
    requires IsState(s)
    ensures ItemsOf(calls + [call]) == ItemsOf(calls) + call.items
    ensures var (s1, frames) := Calls(s, calls);
            var (s2, frame) := ReceivedBy(s1, call.items, call.now % WRAP);
            && Calls(s, calls + [call]) == (s2, frames + Taken(frame))
            && (StopInTime(s, calls) && StopsAtFrame(s1, call.items) ==> StopInTime(s, calls + [call]))
    decreases |calls|
  {
    hide ReceivedBy, StopsAtFrame;
    if calls == [] {
      assert (calls + [call])[0] == call && (calls + [call])[1..] == [];
      var (s2, frame) := ReceivedBy(s, call.items, call.now % WRAP);
      assert Calls(s2, []) == (s2, []);
      assert StopInTime(s2, []) && ItemsOf([]) == [];
      assert call.items + [] == call.items == [] + call.items;
      assert Taken(frame) + [] == Taken(frame) == [] + Taken(frame);
    } else {
      assert (calls + [call])[1..] == calls[1..] + [call];
      var (s1, frame) := ReceivedBy(s, calls[0].items, calls[0].now % WRAP);
      OneMoreCall(s1, calls[1..], call);
      var (s2, frames) := Calls(s1, calls[1..]);
      var last := Taken(ReceivedBy(s2, call.items, call.now % WRAP).1);
      assert Taken(frame) + (frames + last) == Taken(frame) + frames + last;
      assert calls[0].items + (ItemsOf(calls[1..]) + call.items) == calls[0].items + ItemsOf(calls[1..]) + call.items;
    }
  }

  // ---- The calls as inputs of the framer ----

  function Bytes(arrivals: seq<Timed>): seq<Input> {
    seq(|arrivals|, (i: nat) requires i < |arrivals| => Byte(arrivals[i].b, arrivals[i].at))
  }

  /** The items carry the arrivals with the free-running counter of their time. */
  predicate Stamped(arrivals: seq<Timed>, items: seq<Item>) {
    |arrivals| == |items| && forall i | 0 <= i < |items| :: items[i] == Item(arrivals[i].b, arrivals[i].at % WRAP)
  }

  /** The bytes of each call, followed by its poll if it came to one. */
  function InputsOf(s: State, calls: seq<Call>, arrivals: seq<Timed>): seq<Input>
    requires IsState(s) && |arrivals| == |ItemsOf(calls)|
    decreases |calls|
  {
    if calls == [] then []
    else
      var n := |calls[0].items|;
      var polls := if FeedItems(s, calls[0].items).1.Some? then [] else [PollAt(calls[0].now)];
      Bytes(arrivals[..n]) + polls +
      InputsOf(ReceivedBy(s, calls[0].items, calls[0].now % WRAP).0, calls[1..], arrivals[n..])
  }

  lemma {:induction false} RunConcat(s: State, a: seq<Input>, b: seq<Input>)
    requires IsState(s)
    ensures var (s1, first) := Run(s, a);
            var (s2, then_) := Run(s1, b);
            Run(s, a + b) == (s2, first + then_)
    decreases |a|
  {
    hide Handle;
    if a == [] {
      assert a + b == b;
      assert [] + Run(s, b).1 == Run(s, b).1;
    } else {
      assert (a + b)[1..] == a[1..] + b;
      var (s1, frame) := Handle(s, a[0]);
      RunConcat(s1, a[1..], b);
      var (s2, frames) := Run(s1, a[1..]);
      assert Taken(frame) + (frames + Run(s2, b).1) == Taken(frame) + frames + Run(s2, b).1;
    }
  }

  /** Items fed up to the first frame are the bytes run through the framer. */
  lemma {:induction false} ItemsAreBytes(s: State, items: seq<Item>, arrivals: seq<Timed>)
    requires IsState(s) && Stamped(arrivals, items) && StopsAtFrame(s, items)
    ensures var (s', frame) := FeedItems(s, items);
            Run(s, Bytes(arrivals)) == (s', Taken(frame))
    decreases |items|
  {
    hide FeedAndTake;
    if items == [] {
      assert Bytes(arrivals) == [];
    } else {
      var n := |items| - 1;
      NoFrameBefore(s, items[..n]);
      ItemsAreBytes(s, items[..n], arrivals[..n]);
      var last := Byte(arrivals[n].b, arrivals[n].at);
      assert Bytes(arrivals) == Bytes(arrivals[..n]) + [last];
      RunThenOne(s, Bytes(arrivals[..n]), last);
      assert [] + Taken(FeedItems(s, items).1) == Taken(FeedItems(s, items).1);
    }
  }

  /** Without a frame in the end there was none on the way. */
  lemma NoFrameBefore(s: State, items: seq<Item>)
    requires IsState(s) && FeedItems(s, items).1.None?
    ensures StopsAtFrame(s, items)
  {
    hide FeedItem;
  }

  lemma {:induction false} CallsAreRun(s: State, calls: seq<Call>, arrivals: seq<Timed>)
    requires IsState(s) && StopInTime(s, calls) && Stamped(arrivals, ItemsOf(calls))
    ensures Run(s, InputsOf(s, calls, arrivals)) == Calls(s, calls)
    ensures BytesOf(InputsOf(s, calls, arrivals)) == arrivals
    decreases |calls|
  {
    hide FeedItems, StopsAtFrame, ReceivedBy, Run, BytesOf, Bytes;
    if calls == [] {
      assert InputsOf(s, calls, arrivals) == [] && arrivals == [];
      EmptyRun(s);
    } else {
      var call, n := calls[0], |calls[0].items|;
      var (s1, frame) := ReceivedBy(s, call.items, call.now % WRAP);
      var polls := if FeedItems(s, call.items).1.Some? then [] else [PollAt(call.now)];
      var bytes, rest := Bytes(arrivals[..n]), InputsOf(s1, calls[1..], arrivals[n..]);
      ItemsAreBytes(s, call.items, arrivals[..n]);
      OneCallIsRun(s, call, bytes, polls);
      CallsAreRun(s1, calls[1..], arrivals[n..]);
      RunConcat(s, bytes + polls, rest);
      OnlyBytes(arrivals[..n], polls, rest);
      assert arrivals[..n] + arrivals[n..] == arrivals;
    }
  }

  lemma EmptyRun(s: State)
    requires IsState(s)
    ensures Run(s, []) == (s, []) && BytesOf([]) == []
  {
  }

  lemma OnlyBytes(arrivals: seq<Timed>, polls: seq<Input>, rest: seq<Input>)
    requires |polls| <= 1 && (polls != [] ==> polls[0].PollAt?)
    ensures BytesOf(Bytes(arrivals) + polls + rest) == arrivals + BytesOf(rest)
  {
    NoBytesInPolls(polls);
    hide Bytes, BytesOf;
    BytesConcat(Bytes(arrivals) + polls, rest);
    BytesConcat(Bytes(arrivals), polls);
    BytesOfBytes(arrivals);
  }

  lemma NoBytesInPolls(polls: seq<Input>)
    requires |polls| <= 1 && (polls != [] ==> polls[0].PollAt?)
    ensures BytesOf(polls) == []
  {
    if polls != [] {
      assert BytesOf(polls[1..]) == [];
    }
  }

  lemma OneCallIsRun(s: State, call: Call, bytes: seq<Input>, polls: seq<Input>)
    requires IsState(s) && Run(s, bytes) == (FeedItems(s, call.items).0, Taken(FeedItems(s, call.items).1))
    requires polls == if FeedItems(s, call.items).1.Some? then [] else [PollAt(call.now)]
    ensures var (s', frame) := ReceivedBy(s, call.items, call.now % WRAP);
            Run(s, bytes + polls) == (s', Taken(frame))
  {
    hide FeedItems, PollAndTake, Run;
    if polls == [] {
      assert bytes + polls == bytes;
    } else {
      var (fed, _) := FeedItems(s, call.items);
      var input := PollAt(call.now);
      assert Handle(fed, input) == PollAndTake(fed, call.now % WRAP);
      hide Handle;
      RunThenOne(s, bytes, input);
      assert [] + Taken(Handle(fed, input).1) == Taken(Handle(fed, input).1);
    }
  }

  lemma {:induction false} BytesConcat(a: seq<Input>, b: seq<Input>)
    ensures BytesOf(a + b) == BytesOf(a) + BytesOf(b)
    decreases |a|
  {
    if a == [] {
      assert a + b == b;
    } else {
      assert (a + b)[0] == a[0] && (a + b)[1..] == a[1..] + b;
      BytesConcat(a[1..], b);
      var first := if a[0].Byte? then [Timed(a[0].b, a[0].at)] else [];
      assert first + (BytesOf(a[1..]) + BytesOf(b)) == first + BytesOf(a[1..]) + BytesOf(b);
    }
  }

  lemma {:induction false} BytesOfBytes(arrivals: seq<Timed>)
    ensures BytesOf(Bytes(arrivals)) == arrivals
    decreases |arrivals|
  {
    if arrivals != [] {
      assert Bytes(arrivals)[1..] == Bytes(arrivals[1..]);
      BytesOfBytes(arrivals[1..]);
    }
  }

  /**
   * The bytes of well-spaced frames, accepted by the ring and drained by any number of calls,
   * come out as the frames that were sent, in order.  Bytes may arrive between the last pop of a
   * call and its poll, as long as that poll does not close the frame they belong to.
   */
  lemma ReceivedFramesAreSent(calls: seq<Call>, arrivals: seq<Timed>, sent: seq<seq<Timed>>)
    requires var idle := Initial(750, 1750);
             && Stamped(arrivals, ItemsOf(calls)) && StopInTime(idle, calls)
             && Timely(None, 0, InputsOf(idle, calls, arrivals), 1750)
    requires WellSpaced(sent, 750, 1750) && arrivals == Line(sent)
    ensures var (s, frames) := Calls(Initial(750, 1750), calls);
            Delivered(s, frames) == Payloads(sent)
  {
    CallsAreRun(Initial(750, 1750), calls, arrivals);
    FramingIsExact(750, 1750, sent, InputsOf(Initial(750, 1750), calls, arrivals));
  }
}
