/** The application's upgrade service: confirmation of a trial boot and ENTER_BOOT. */
module AppUpgrade {
  import opened Types
  import opened Messages
  import opened MetadataLog
  import opened BootMetadata
  import opened Device
  import opened BootUpgrade
  import Flash = FlashImage
  import ModbusRtu

  class Application {
    const journal: Journal
    const version: u32
    var confirmation: Confirm
    var resetAfterResponse: bool
    var watchdogReloads: nat

    ghost predicate Valid() { journal.Valid() }

    /** The device while this application runs over some content of the APP partition. */
    ghost function Machine(flash: seq<byte>): (s: System)
      requires Valid() && Flash.IsFlash(flash)
      reads this, journal.words
      ensures IsSystem(s)
    {
      LogOfIsWellFormed(journal.words[..]);
      System(journal.Log(), flash, App(version, confirmation, resetAfterResponse))
    }

    constructor (journal: Journal, version: u32, transportReady: bool)
      requires journal.Valid()
      ensures Valid() && this.journal == journal && this.version == version && !resetAfterResponse
      ensures WellFormed(journal.Log()) && confirmation == AppInit(journal.Log(), transportReady, version)
    {
      this.journal, this.version := journal, version;
      confirmation, resetAfterResponse, watchdogReloads := NotRequired, false, 0;
      new;
      LogOfIsWellFormed(journal.words[..]);
      hide LogOf, Latest, HasUsed;
      var status, latest := journal.LoadLatest();
      if !transportReady {
        confirmation := Blocked;
      } else if status == Ok && latest.value.state == PENDING_BOOT {
        confirmation := if Compatible(latest.value, version) then Waiting else Blocked;
      }
    }

    method ConfirmPendingImage(plan: Plan) returns (ok: bool)
      requires Valid()
      modifies journal.words
      ensures WellFormed(old(journal.Log()))
      ensures (journal.Log(), ok) == ConfirmPending(old(journal.Log()), version, plan)
    {
      LogOfIsWellFormed(journal.words[..]);
      hide LogOf, Latest, HasUsed, Append;
      var status, latest := journal.LoadLatest();
      if status != Ok { return false; }
      if !Compatible(latest.value, version) { return false; }
      var appended, written := journal.Append(latest.value.(state := CONFIRMED, error := 0), plan);
      ok := appended == MetadataLog.Ok;
    }

    method HandleEnterBoot(req: Request, f: Faults) returns (reply: Reply)
      requires Valid()
      modifies this`resetAfterResponse, journal.words
      ensures WellFormed(old(journal.Log()))
      ensures (journal.Log(), reply) == AppEnterBoot(old(journal.Log()), req, f)
      ensures resetAfterResponse == (old(resetAfterResponse) || reply == OK)
    {
      LogOfIsWellFormed(journal.words[..]);
      hide LogOf, Latest, HasUsed, Append, CompactIfNeeded;
      if !IsBare(req) { return BadFrame; }
      var status, latest := journal.LoadLatest();
      if status != MetadataLog.Ok && status != Empty { return FlashError; }
      status := journal.CompactIfNeeded(APP_MAX_REQUIRED_RECORDS, f.first);
      if status != MetadataLog.Ok && status != Empty { return FlashError; }
      var desired := InitRecord(UPDATE_REQUESTED).(session := req.session);
      var written;
      status, written := journal.Append(desired, f.second);
      if status != MetadataLog.Ok { return FlashError; }
      resetAfterResponse := true;
      return OK;
    }

    method Dispatch(req: Request, f: Faults) returns (response: Response)
      requires Valid()
      modifies this`resetAfterResponse, journal.words
      ensures WellFormed(old(journal.Log()))
      ensures (journal.Log(), response) == AppDispatch(old(journal.Log()), version, req, f)
      ensures resetAfterResponse == (old(resetAfterResponse) || (req.command == EnterBoot && response.reply == OK))
    {
      LogOfIsWellFormed(journal.words[..]);
      hide LogOf, Latest, HasUsed, AppEnterBoot;
      response := Response(req.command, OK, req.session, req.seqno, 0, NoBody);
      match req.command {
        case Hello =>
          if !IsBare(req) { return response.(reply := BadFrame); }
          return response.(body := HelloBody(false, true, MAX_PAYLOAD));
        case GetInfo =>
          if !IsBare(req) { return response.(reply := BadFrame); }
          var status, latest := journal.LoadLatest();
          var state := if status == MetadataLog.Ok then latest.value.state else EMPTY;
          return response.(body := InfoBody(PRODUCT_ID, HARDWARE_ID, version, APP_MAX_SIZE, state, false));
        case EnterBoot =>
          var reply := HandleEnterBoot(req, f);
          return response.(reply := reply);
        case _ =>
          return response.(reply := Busy);
      }
    }

    /**
     * One pass of the main loop: confirmation once its delay is over, then at most one request.
     * A blocked application does nothing, not even reload the watchdog.
     */
    method Poll(delayOver: bool, confirmFaults: Faults, incoming: Incoming, ghost flash: seq<byte>)
      returns (response: Option<Response>, exception: Option<ModbusRtu.Frame>, reset: bool)
      requires Valid() && Flash.IsFlash(flash)
      modifies this, journal.words
      ensures var confirmed := if delayOver then Step(old(Machine(flash)), ConfirmDelay(confirmFaults)).0 else old(Machine(flash));
              var (s, answer) := if incoming.Upgrade? then Step(confirmed, Receive(incoming.req, incoming.sent, incoming.faults))
                                 else (confirmed, None);
              && response == answer
              && s == if reset then Machine(flash).(mode := Off) else Machine(flash)
      ensures watchdogReloads == old(watchdogReloads) + if old(confirmation) == Blocked then 0 else 1
      ensures exception == if incoming.ForeignFunction? && incoming.sent && confirmation != Blocked
                           then ModbusRtu.ExceptionFrame(NODE_ADDRESS, incoming.func, ILLEGAL_FUNCTION) else None
    {
      hide LogOf, AppDispatch, ConfirmPending, Latest;
      response, exception, reset := None, None, false;
      if confirmation == Blocked { return; }
      watchdogReloads := watchdogReloads + 1;
      if confirmation == Waiting && delayOver {
        var ok := ConfirmPendingImage(confirmFaults.first);
        if ok {
          confirmation := Complete;
        } else {
          confirmation := Blocked;
          return;
        }
      }
      if incoming.ForeignFunction? && incoming.sent {
        exception := ModbusRtu.ExceptionFrame(NODE_ADDRESS, incoming.func, ILLEGAL_FUNCTION);
      }
      if !incoming.Upgrade? { return; }
      var answer := Dispatch(incoming.req, incoming.faults);
      if incoming.sent {
        response := Some(answer);
        reset := resetAfterResponse;
      }
    }
  }
}
