/** The serial link between gateway and device: what one exchange can do to both ends. */
module Link {
  import opened Types
  import opened Messages
  import opened Device

  /** Why there is no usable answer: silence, undecodable bytes, a port error, a request that cannot be sent. */
  datatype Failure = TimedOut | BadResponse | PortFailed | BadArgument

  datatype Delivery =
    | RequestLost(noticed: Failure)
    | ResponseLost(sent: bool, noticed: Failure)
    | Answered

  /** One attempt: what happened to the device since the previous one, then the delivery. */
  datatype Fate = Fate(before: seq<Event>, delivery: Delivery, faults: Faults)

  datatype Outcome = NoAnswer(failure: Failure) | Answer(response: Response)

  /** There is one gateway: nobody else sends requests. */
  predicate IsFate(fate: Fate) {
    forall i | 0 <= i < |fate.before| :: !fate.before[i].Receive?
  }

  function Steps(s: System, events: seq<Event>): (r: System)
    requires IsSystem(s)
    ensures IsSystem(r)
    decreases |events|
  {
    if events == [] then s else Steps(Step(s, events[0]).0, events[1..])
  }

  function Exchange(s: System, req: Request, fate: Fate): (r: (System, Outcome))
    requires IsSystem(s)
    ensures IsSystem(r.0)
  {
    var ready := Steps(s, fate.before);
    match fate.delivery
    case RequestLost(noticed) => (ready, NoAnswer(noticed))
    case ResponseLost(sent, noticed) => (Step(ready, Receive(req, sent, fate.faults)).0, NoAnswer(noticed))
    case Answered =>
      var (handled, response) := Step(ready, Receive(req, true, fate.faults));
      (handled, if response.Some? then Answer(response.value) else NoAnswer(TimedOut))
  }

  datatype Result = Error(failure: Failure) | Got(response: Response)

  /** A transaction: the same request until it is answered or the attempts run out. */
  function Attempts(s: System, req: Request, fates: nat -> Fate, clock: nat, left: nat, last: Failure)
    : (r: (System, nat, Result))
    requires IsSystem(s)
    ensures IsSystem(r.0)
    decreases left
  {
    if left == 0 then (s, clock, Error(last))
    else
      var (s', outcome) := Exchange(s, req, fates(clock));
      match outcome
      case NoAnswer(failure) => Attempts(s', req, fates, clock + 1, left - 1, failure)
      case Answer(response) =>
        if response.command != req.command || response.seqno != req.seqno
        then Attempts(s', req, fates, clock + 1, left - 1, BadResponse)
        else (s', clock + 1, Got(response))
  }

  // ---- Invariants across exchanges ----

  /** A property of the device that every allowed event keeps. */
  ghost predicate Invariant(inv: System -> bool, allowed: Event -> bool) {
    && (forall s: System | inv(s) :: IsSystem(s))
    && (forall s: System, e: Event | inv(s) && allowed(e) :: IsSystem(s) && inv(Step(s, e).0))
  }

  ghost predicate Allows(allowed: Event -> bool, req: Request, fate: Fate) {
    && (forall i | 0 <= i < |fate.before| :: allowed(fate.before[i]))
    && (forall sent: bool :: allowed(Receive(req, sent, fate.faults)))
  }

  lemma {:induction false} StepsKeep(inv: System -> bool, allowed: Event -> bool, s: System, events: seq<Event>)
    requires Invariant(inv, allowed) && inv(s)
    requires forall i | 0 <= i < |events| :: allowed(events[i])
    ensures inv(Steps(s, events))
    decreases |events|
  {
    hide Step, IsSystem;
    if events != [] {
      StepsKeep(inv, allowed, Step(s, events[0]).0, events[1..]);
    }
  }

  lemma ExchangeKeeps(inv: System -> bool, allowed: Event -> bool, s: System, req: Request, fate: Fate)
    requires Invariant(inv, allowed) && inv(s) && Allows(allowed, req, fate)
    ensures inv(Exchange(s, req, fate).0)
  {
    StepsKeep(inv, allowed, s, fate.before);
    hide Step, IsSystem, Steps;
  }

  lemma {:induction false} AttemptsKeep(inv: System -> bool, allowed: Event -> bool, s: System, req: Request,
                                        fates: nat -> Fate, clock: nat, left: nat, last: Failure)
    requires Invariant(inv, allowed) && inv(s)
    requires forall n: nat :: Allows(allowed, req, fates(n))
    ensures inv(Attempts(s, req, fates, clock, left, last).0)
    decreases left
  {
    hide Exchange, IsSystem, Allows;
    if left > 0 {
      ExchangeKeeps(inv, allowed, s, req, fates(clock));
      var (s', outcome) := Exchange(s, req, fates(clock));
      AttemptsKeep(inv, allowed, s', req, fates, clock + 1, left - 1,
                   if outcome.NoAnswer? then outcome.failure else BadResponse);
    }
  }

  lemma ExchangeIsGenuine(inv: System -> bool, allowed: Event -> bool, s: System, req: Request, fate: Fate)
    requires Invariant(inv, allowed) && inv(s) && Allows(allowed, req, fate)
    ensures IsSystem(s) && inv(Steps(s, fate.before)) && inv(Exchange(s, req, fate).0)
    ensures var (s', outcome) := Exchange(s, req, fate);
            outcome.Answer? ==> Step(Steps(s, fate.before), Receive(req, true, fate.faults)) == (s', Some(outcome.response))
  {
    StepsKeep(inv, allowed, s, fate.before);
    ExchangeKeeps(inv, allowed, s, req, fate);
    hide Step, IsSystem, Steps, Allows;
  }

  /** An answer is what the device said to the last delivered request, in a state with the invariant. */
  lemma {:induction false} AnswerIsGenuine(inv: System -> bool, allowed: Event -> bool, s: System, req: Request,
                                           fates: nat -> Fate, clock: nat, left: nat, last: Failure)
    returns (ready: System, n: nat)
    requires Invariant(inv, allowed) && inv(s)
    requires forall n: nat :: Allows(allowed, req, fates(n))
    ensures IsSystem(s)
    ensures var (s', _, result) := Attempts(s, req, fates, clock, left, last);
            result.Got? ==> inv(ready) && IsSystem(ready) &&
                            Step(ready, Receive(req, true, fates(n).faults)) == (s', Some(result.response))
    decreases left
  {
    hide Exchange, Allows, Step, IsSystem, Steps;
    ready, n := s, clock;
    if left > 0 {
      var fate := fates(clock);
      ready := Steps(s, fate.before);
      ExchangeIsGenuine(inv, allowed, s, req, fate);
      var (s', outcome) := Exchange(s, req, fate);
      if outcome.NoAnswer? || outcome.response.command != req.command || outcome.response.seqno != req.seqno {
        ready, n := AnswerIsGenuine(inv, allowed, s', req, fates, clock + 1, left - 1,
                                    if outcome.NoAnswer? then outcome.failure else BadResponse);
      }
    }
  }

  // ---- The device at the far end ----

  class World {
    var device: System
    var clock: nat
    const fates: nat -> Fate

    ghost predicate Valid()
      reads this
    {
      IsSystem(device) && forall n: nat :: IsFate(fates(n))
    }

    constructor (device: System, fates: nat -> Fate)
      requires IsSystem(device) && forall n: nat :: IsFate(fates(n))
      ensures Valid() && this.device == device && this.clock == 0 && this.fates == fates
    {
      this.device, this.clock, this.fates := device, 0, fates;
    }

    method Send(req: Request) returns (outcome: Outcome)
      requires Valid()
      modifies this
      ensures Valid() && clock == old(clock) + 1
      ensures (device, outcome) == Exchange(old(device), req, fates(old(clock)))
    {
      hide Exchange, IsSystem;
      var answer := Exchange(device, req, fates(clock));
      device, outcome := answer.0, answer.1;
      clock := clock + 1;
    }
  }
}
