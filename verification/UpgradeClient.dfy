/** The gateway's request side: retries under one sequence number until a matching answer comes. */
module UpgradeClient {
  import opened Types
  import opened Messages
  import opened Device
  import opened Link
  import ModbusRtu
  import UpgradeProtocol

  const MAX_RETRY_COUNT: nat := 5

  /** The request fits the codec: after a bad address or with no attempt at all nothing is sent. */
  predicate CanSend(address: byte, req: Request, attempts: nat) {
    && attempts > 0
    && UpgradeProtocol.EncodeMessageCheck(address, UpgradeProtocol.RequestMessage(req), false, ModbusRtu.MAX_ADU_SIZE) == ModbusRtu.Ok
  }

  /** Every request to a slave address can be sent. */
  lemma ValidAddressCanSend(address: byte, req: Request, attempts: nat)
    requires attempts > 0 && ModbusRtu.MIN_SLAVE_ADDRESS <= address <= ModbusRtu.MAX_SLAVE_ADDRESS
    ensures CanSend(address, req, attempts)
  {
    UpgradeProtocol.RequestSurvivesTheLine(address, req);
  }

  class Client {
    const address: byte
    var nextSequence: u32

    constructor (address: byte)
      ensures nextSequence == 0 && this.address == address
    {
      this.address, nextSequence := address, 0;
    }

    /** Sends the request up to `attempts` times; the sequence number moves on only with an answer. */
    method Transact(world: World, command: Command, session: u32, offset: u32, payload: Payload, attempts: nat)
      returns (result: Result)
      requires world.Valid()
      modifies this, world
      ensures world.Valid()
      ensures var req := Request(command, session, old(nextSequence), offset, payload);
              (world.device, world.clock, result) ==
              if CanSend(address, req, attempts)
              then Attempts(old(world.device), req, world.fates, old(world.clock), attempts, TimedOut)
              else (old(world.device), old(world.clock), Error(BadArgument))
      ensures nextSequence == if result.Got? then (old(nextSequence) + 1) % 0x1_0000_0000 else old(nextSequence)
    {
      hide Exchange, IsSystem, UpgradeProtocol.EncodeMessageCheck, UpgradeProtocol.RequestMessage;
      if attempts == 0 { return Error(BadArgument); }
      var request := Request(command, session, nextSequence, offset, payload);
      if UpgradeProtocol.EncodeMessageCheck(address, UpgradeProtocol.RequestMessage(request), false, ModbusRtu.MAX_ADU_SIZE)
         != ModbusRtu.Ok {
        return Error(BadArgument);
      }
      var lastError := TimedOut;
      var attempt := 1;
      while attempt <= attempts
        invariant 1 <= attempt <= attempts + 1 && world.Valid() && nextSequence == old(nextSequence)
        invariant Attempts(old(world.device), request, world.fates, old(world.clock), attempts, TimedOut) ==
                  Attempts(world.device, request, world.fates, world.clock, attempts + 1 - attempt, lastError)
      {
        var outcome := world.Send(request);
        attempt := attempt + 1;
        if outcome.NoAnswer? {
          lastError := outcome.failure;
          continue;
        }
        var response := outcome.response;
        if response.command != command || response.seqno != request.seqno {
          lastError := BadResponse;
          continue;
        }
        nextSequence := (nextSequence + 1) % 0x1_0000_0000;
        return Got(response);
      }
      return Error(lastError);
    }
  }
}
