/** The interrupt-fed receive ring and the receive loop that drains it into the framer. */
module UartTransport {
  import opened Types
  import opened Framing
  import opened RtuStream

  const CAPACITY: nat := 512
  const T1_5_US: u32 := 750
  const T3_5_US: u32 := 1750

  /** A received byte with the free-running microsecond counter at its interrupt. */
  datatype Item = Item(b: byte, stamp: u32)

  /** The next index; the mask of the power-of-two capacity is the remainder. */
  function Next(index: nat): (n: nat)
    requires index < CAPACITY
    ensures n == if index + 1 == CAPACITY then 0 else index + 1
  {
    (index + 1) % CAPACITY
  }

  /** How far the head is ahead of the tail, around the ring. */
  function Distance(tail: nat, head: nat): int {
    if head >= tail then head - tail else head + CAPACITY - tail
  }

  /**
   * Single producer, single consumer: the interrupt moves the head, the main loop the tail.
   * `coming` is what the line will still deliver, `bursts` how many interrupts fire in each gap
   * between two steps of the main loop.
   */
  class Ring {
    const slots: array<Item>
    var head: nat
    var tail: nat
    var receivedBytes: u32
    var droppedBytes: u32
    ghost var accepted: seq<Item>
    ghost var popped: nat
    var coming: seq<Item>
    var gap: nat
    const bursts: nat -> nat

    /** How many accepted items are still in the ring. */
    ghost function Occupancy(): int
      reads this
    {
      |accepted| - popped
    }

    ghost predicate Valid()
      reads this, slots
    {
      && slots.Length == CAPACITY && head < CAPACITY && tail < CAPACITY
      && popped <= |accepted|
      && 0 <= Occupancy() == Distance(tail, head) < CAPACITY
      && forall i | 0 <= i < Occupancy() :: slots[At(tail, i)] == accepted[popped + i]
    }

    constructor (coming: seq<Item>, bursts: nat -> nat)
      ensures Valid() && accepted == [] && popped == 0 && this.coming == coming && fresh(slots)
    {
      slots := new Item[CAPACITY](_ => Item(0, 0));
      head, tail, receivedBytes, droppedBytes := 0, 0, 0, 0;
      accepted, popped := [], 0;
      this.coming, this.bursts, gap := coming, bursts, 0;
    }

    /** Before the interrupt is armed: nothing waits, nothing is counted. */
    method Clear()
      requires Valid()
      modifies this`head, this`tail, this`receivedBytes, this`droppedBytes, this`popped
      ensures Valid() && popped == |accepted| && receivedBytes == 0 && droppedBytes == 0
    {
      head, tail, receivedBytes, droppedBytes := 0, 0, 0, 0;
      popped := |accepted|;
    }

    /** The receive interrupt: stores the byte, or drops it when the ring is full. */
    method Interrupt(item: Item)
      requires Valid()
      modifies this`head, this`receivedBytes, this`droppedBytes, this`accepted, slots
      ensures Valid()
      ensures if old(Occupancy()) == CAPACITY - 1
              then accepted == old(accepted) && droppedBytes == (old(droppedBytes) + 1) % 0x1_0000_0000
              else accepted == old(accepted) + [item] && droppedBytes == old(droppedBytes)
    {
      SlotsDiffer(tail, head);
      hide At, Next;
      var nextHead := Next(head);
      if nextHead == tail {
        droppedBytes := (droppedBytes + 1) % 0x1_0000_0000;
      } else {
        slots[head] := item;
        head := nextHead;
        receivedBytes := (receivedBytes + 1) % 0x1_0000_0000;
        accepted := accepted + [item];
      }
    }

    /** The main loop is interrupted here, as often as the line has bytes for it. */
    method Preempt()
      requires Valid()
      modifies this`head, this`receivedBytes, this`droppedBytes, this`accepted, this`coming, this`gap, slots
      ensures Valid() && old(accepted) <= accepted && |coming| <= |old(coming)|
      ensures |accepted| + |coming| <= |old(accepted)| + |old(coming)|
    {
      var left := bursts(gap);
      gap := gap + 1;
      while left > 0 && coming != []
        invariant Valid() && old(accepted) <= accepted && |coming| <= |old(coming)|
        invariant |accepted| + |coming| <= |old(accepted)| + |old(coming)|
      {
        Interrupt(coming[0]);
        coming := coming[1..];
        left := left - 1;
      }
    }

    /** Gives the oldest slot back to the interrupt. */
    method MoveTail(start: nat)
      requires Valid() && Occupancy() > 0 && start == tail
      modifies this`tail, this`popped
      ensures Valid() && popped == old(popped) + 1
    {
      TailMoves(tail, head);
      hide At, Next;
      tail := Next(start);
      popped := popped + 1;
    }

    /**
     * Takes the oldest accepted item, with interrupts between any two of its steps: items come
     * out in the order in which they were accepted, and an empty answer means none was waiting.
     */
    method Pop() returns (item: Option<Item>)
      requires Valid()
      modifies this, slots
      ensures Valid() && old(accepted) <= accepted
      ensures |accepted| + |coming| <= |old(accepted)| + |old(coming)|
      ensures item.Some? ==> old(popped) < |accepted| && item.value == accepted[old(popped)] && popped == old(popped) + 1
      ensures item.None? ==> popped == old(popped) == |old(accepted)|
      ensures 0 <= Occupancy() <= CAPACITY - 1
    {
      var start := tail;
      Preempt();
      var seenHead := head;
      if start == seenHead {
        Preempt();
        return None;
      }
      assert Occupancy() > 0;
      Preempt();
      assert slots[At(tail, 0)] == accepted[popped];
      var b := slots[start].b;
      Preempt();
      assert slots[At(tail, 0)] == accepted[popped];
      var stamp := slots[start].stamp;
      Preempt();
      MoveTail(start);
      Preempt();
      return Some(Item(b, stamp));
    }
  }

  /** The slot of the i-th pending item. */
  function At(tail: nat, i: nat): (n: nat)
    requires tail < CAPACITY && i < CAPACITY
    ensures n < CAPACITY
  {
    if tail + i < CAPACITY then tail + i else tail + i - CAPACITY
  }

  /** The head of a ring that is not full lies outside the occupied slots. */
  lemma SlotsDiffer(tail: nat, head: nat)
    requires tail < CAPACITY && head < CAPACITY
    ensures var count := Distance(tail, head);
            && 0 <= count < CAPACITY && head == At(tail, count)
            && (forall i: nat | i < count :: At(tail, i) != head)
            && (Next(head) != tail ==> Distance(tail, Next(head)) == count + 1)
            && (Next(head) == tail <==> count == CAPACITY - 1)
  {
  }

  lemma TailMoves(tail: nat, head: nat)
    requires tail < CAPACITY && head < CAPACITY && tail != head
    ensures At(tail, 0) == tail
    ensures Distance(Next(tail), head) == Distance(tail, head) - 1
    ensures forall i: nat | i + 1 < CAPACITY :: At(Next(tail), i) == At(tail, i + 1)
  {
  }

  // ---- The receive loop ----

  function FeedItem(s: State, item: Item): (r: (State, Option<seq<byte>>))
    requires IsState(s)
    ensures IsState(r.0)
  {
    FeedAndTake(s, item.b, item.stamp)
  }

  /** Popped items up to the first complete frame. */
  function FeedItems(s: State, items: seq<Item>): (r: (State, Option<seq<byte>>))
    requires IsState(s)
    ensures IsState(r.0)
    decreases |items|
  {
    if items == [] then (s, None)
    else
      var n := |items| - 1;
      var (before, frame) := FeedItems(s, items[..n]);
      if frame.Some? then (before, frame) else FeedItem(before, items[n])
  }

  /** A framer refuses a byte exactly while it holds a frame, and holds one exactly when it says so. */
  lemma FeedStatus(s: State, b: byte, now: u32)
    requires IsState(s)
    ensures var (s', status) := Feed(s, b, now);
            && (status == Busy <==> s.ready)
            && (!s.ready ==> (status == FrameReady <==> s'.ready))
            && s'.interchar == s.interchar && s'.gap == s.gap
  {
  }

  lemma PollStatus(s: State, now: u32)
    requires IsState(s)
    ensures var (s', status) := Poll(s, now);
            (status == FrameReady <==> s'.ready) && (status != FrameReady ==> s' == s)
  {
  }

  class Transport {
    const ring: Ring
    const stream: Stream
    var initialized: bool
    var malformedFrames: u32
    /** Items that were taken from the ring and refused by the framer. */
    ghost var lost: nat

    ghost predicate Valid()
      reads this, ring, ring.slots, stream, stream.currentFrame, stream.completedFrame
    {
      && ring.Valid() && stream.Valid() && IsState(stream.View())
      && (ring.slots as object) != stream.currentFrame && (ring.slots as object) != stream.completedFrame
    }

    constructor (coming: seq<Item>, bursts: nat -> nat)
      ensures Valid() && !initialized && lost == 0 && !stream.frameReady
      ensures fresh(ring) && fresh(ring.slots) && fresh(stream) && fresh(stream.currentFrame) && fresh(stream.completedFrame)
    {
      ring := new Ring(coming, bursts);
      stream := new Stream();
      initialized, malformedFrames, lost := false, 0, 0;
      new;
      var status := stream.Init(T1_5_US, T3_5_US);
    }

    /** Starts the transport, once: empty ring, idle framer; the timer and the first receive may fail to start. */
    method Init(timerStarts: bool, receiveStarts: bool) returns (ok: bool)
      requires Valid()
      modifies this`initialized, this`malformedFrames, ring, stream
      ensures Valid() && ok == initialized && ring.accepted == old(ring.accepted)
      ensures if old(initialized) then stream.View() == old(stream.View()) && ring.popped == old(ring.popped) && ok
              else && ring.popped == |ring.accepted| && ok == (timerStarts && receiveStarts)
                   && (ok ==> stream.View() == Initial(750, 1750))
    {
      if initialized { return true; }
      ring.Clear();
      malformedFrames := 0;
      if !timerStarts { return false; }
      var status := stream.Init(T1_5_US, T3_5_US);
      if status != NoFrame { return false; }
      initialized := receiveStarts;
      ok := initialized;
    }

    method TakeReadyFrame(frame: array<byte>) returns (taken: bool, length: nat)
      requires Valid() && frame != stream.currentFrame && frame != stream.completedFrame && (ring.slots as object) != frame
      modifies stream`completedLength, stream`frameReady, frame
      ensures Valid()
      ensures taken <==> old(stream.frameReady) && frame.Length >= |old(stream.View()).completed|
      ensures taken ==> && stream.View() == Take(old(stream.View())).0
                        && length <= frame.Length && frame[..length] == Take(old(stream.View())).1
      ensures !taken ==> stream.View() == old(stream.View())
    {
      var status;
      status, length := stream.TakeFrame(frame);
      taken := status == FrameReady;
    }

    /** Pops one item and feeds it; stops at a complete frame, an empty ring, or a refused byte. */
    method TakeOne(frame: array<byte>) returns (more: bool, ok: bool, length: nat)
      requires Valid() && frame != stream.currentFrame && frame != stream.completedFrame && (ring.slots as object) != frame
      modifies this`malformedFrames, this`lost, ring, ring.slots, stream, stream.currentFrame, stream.completedFrame, frame
      ensures Valid() && old(ring.accepted) <= ring.accepted && !(more && ok)
      ensures |ring.accepted| + |ring.coming| <= |old(ring.accepted)| + |old(ring.coming)|
      ensures old(ring.popped) <= ring.popped <= old(ring.popped) + 1
      ensures more ==> ring.popped == old(ring.popped) + 1
      ensures frame.Length >= MAX_ADU_SIZE && !old(stream.frameReady) ==>
                && lost == old(lost) && !stream.frameReady
                && (ring.popped == old(ring.popped) ==> !more && !ok && stream.View() == old(stream.View()))
                && (ring.popped > old(ring.popped) ==>
                      var (s, made) := FeedItem(old(stream.View()), ring.accepted[old(ring.popped)]);
                      stream.View() == s && more == made.None? && ok == made.Some? &&
                      (ok ==> length <= frame.Length && frame[..length] == made.value))
    {
      hide Feed;
      more, ok, length := false, false, 0;
      var item := ring.Pop();
      if item.None? { return; }
      FeedStatus(stream.View(), item.value.b, item.value.stamp);
      var status := stream.Feed(item.value.b, item.value.stamp);
      if status == FrameReady {
        ok, length := TakeReadyFrame(frame);
        return;
      }
      if status == Overflow {
        malformedFrames := (malformedFrames + 1) % 0x1_0000_0000;
        stream.Reset();
      } else if status == Busy {
        malformedFrames := (malformedFrames + 1) % 0x1_0000_0000;
        lost := lost + 1;
        return;
      }
      more := true;
    }

    /** Pops and feeds until a frame is complete, the ring is empty, or the framer refuses a byte. */
    method Drain(frame: array<byte>) returns (ok: bool, length: nat)
      requires Valid() && frame != stream.currentFrame && frame != stream.completedFrame && (ring.slots as object) != frame
      modifies this`malformedFrames, this`lost, ring, ring.slots, stream, stream.currentFrame, stream.completedFrame, frame
      ensures Valid() && old(ring.accepted) <= ring.accepted && old(ring.popped) <= ring.popped
      ensures frame.Length >= MAX_ADU_SIZE && !old(stream.frameReady) ==>
                && lost == old(lost) && !stream.frameReady
                && StopsAtFrame(old(stream.View()), ring.accepted[old(ring.popped)..ring.popped])
                && Fed(old(stream.View()), ring.accepted[old(ring.popped)..ring.popped], stream.View(), ok,
                       length <= frame.Length, if length <= frame.Length then frame[..length] else [])
    {
      hide FeedItem, FeedItems;
      ok, length := false, 0;
      ghost var start := stream.View();
      ghost var first := ring.popped;
      FeedNothing(start);
      assert ring.accepted[first..ring.popped] == [];
      var more := true;
      while more
        invariant Valid() && old(ring.accepted) <= ring.accepted && old(ring.popped) == first <= ring.popped
        invariant !(more && ok)
        invariant frame.Length >= MAX_ADU_SIZE && !start.ready ==> lost == old(lost) && !stream.frameReady
        invariant frame.Length >= MAX_ADU_SIZE && !start.ready ==> StopsAtFrame(start, ring.accepted[first..ring.popped])
        invariant frame.Length >= MAX_ADU_SIZE && !start.ready ==>
                    Fed(start, ring.accepted[first..ring.popped], stream.View(), ok, length <= frame.Length,
                        if length <= frame.Length then frame[..length] else [])
        decreases |ring.accepted| + |ring.coming| - ring.popped + if more then 1 else 0
      {
        ghost var before := ring.accepted[first..ring.popped];
        ghost var popped := ring.popped;
        more, ok, length := TakeOne(frame);
        if ring.popped > popped {
          FeedOneMore(start, before, ring.accepted[popped]);
          assert ring.accepted[first..ring.popped] == before + [ring.accepted[popped]];
          assert (before + [ring.accepted[popped]])[..|before|] == before;
        } else {
          assert ring.accepted[first..ring.popped] == before;
        }
      }
    }

    /**
     * Drains the ring into the framer until a frame is complete.  With a buffer for a whole
     * frame no popped byte is ever lost, and the frame is the one the popped items make.
     */
    method Receive(frame: array<byte>, now: u32) returns (ok: bool, length: nat)
      requires Valid() && frame != stream.currentFrame && frame != stream.completedFrame && (ring.slots as object) != frame
      modifies this, ring, ring.slots, stream, stream.currentFrame, stream.completedFrame, frame
      ensures Valid() && old(ring.accepted) <= ring.accepted && old(ring.popped) <= ring.popped
      ensures frame.Length >= MAX_ADU_SIZE && old(initialized) ==> lost == old(lost) && !stream.frameReady
      ensures frame.Length >= MAX_ADU_SIZE && old(initialized) && !old(stream.frameReady) ==>
                && StopsAtFrame(old(stream.View()), ring.accepted[old(ring.popped)..ring.popped])
                && ReceivedBy(old(stream.View()), ring.accepted[old(ring.popped)..ring.popped], now) ==
                     (stream.View(), if ok && length <= frame.Length then Some(frame[..length]) else None)
                && (ok ==> length <= frame.Length) && initialized
    {
      hide FeedItems, StopsAtFrame, Poll;
      ok, length := false, 0;
      if !initialized { return; }
      ok, length := TakeReadyFrame(frame);
      if ok { return; }
      ok, length := Drain(frame);
      if ok { return; }
      PollStatus(stream.View(), now);
      var status := stream.Poll(now);
      if status == FrameReady {
        ok, length := TakeReadyFrame(frame);
      }
    }
  }

  /** The framer's state and the frame, if any, that the items made. */
  predicate Fed(start: State, items: seq<Item>, end: State, ok: bool, fits: bool, frame: seq<byte>)
    requires IsState(start)
  {
    FeedItems(start, items) == (end, if ok && fits then Some(frame) else None) && (ok ==> fits)
  }

  /** The items end with the one that made a frame, if any made one. */
  predicate StopsAtFrame(s: State, items: seq<Item>)
    requires IsState(s)
  {
    items != [] ==> FeedItems(s, items[..|items| - 1]).1.None?
  }

  /** What one call hands over: a frame that the items made, or one that the silence until now closed. */
  function ReceivedBy(start: State, items: seq<Item>, now: u32): (r: (State, Option<seq<byte>>))
    requires IsState(start)
    ensures IsState(r.0)
  {
    var (s, made) := FeedItems(start, items);
    if made.Some? then (s, made) else PollAndTake(s, now)
  }

  lemma FeedNothing(s: State)
    requires IsState(s)
    ensures FeedItems(s, []) == (s, None)
  {
  }

  lemma FeedOneMore(s: State, items: seq<Item>, item: Item)
    requires IsState(s)
    ensures var (before, frame) := FeedItems(s, items);
            FeedItems(s, items + [item]) == if frame.Some? then (before, frame) else FeedItem(before, item)
  {
    hide FeedItem;
    assert (items + [item])[..|items|] == items;
  }
}
